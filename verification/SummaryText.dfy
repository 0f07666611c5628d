/** The text of the report can be taken apart again: if no line break comes in with the rows,
    the title or the number formats, there is none in any line. */
module SummaryText {
  import opened Prelude
  import opened Sorting
  import opened MarkdownTable
  import opened Summary
  import opened SummaryOrder
  import opened SummaryLayout

  predicate Plain(field: Option<string>) { field.Some? ==> '\n' !in field.value }

  /** No field that is printed holds a line break. */
  predicate TidyRow(r: Row) {
    && Plain(r.architecture) && Plain(r.backend) && Plain(r.version)
    && Plain(r.algorithm) && Plain(r.operation) && Plain(r.cipher)
  }

  predicate TidyRows(rows: seq<Row>) { forall r :: r in rows ==> TidyRow(r) }

  ghost predicate TidyFormat(fmt: Format) {
    && (forall x :: '\n' !in fmt.rate(x)) && (forall x :: '\n' !in fmt.ratio(x))
    && (forall x :: '\n' !in fmt.patchedRatio(x)) && forall n :: '\n' !in fmt.number(n)
  }

  lemma BreakFreeConcat(a: seq<string>, b: seq<string>)
    requires BreakFree(a) && BreakFree(b)
    ensures BreakFree(a + b)
  {
  }

  // ----- the version table

  lemma {:induction false} VersionIsTidy(rows: seq<Row>, backend: string)
    requires TidyRows(rows)
    ensures '\n' !in VersionOf(rows, backend)
  {
    if rows != [] {
      assert rows[|rows| - 1] in rows;
      VersionIsTidy(rows[..|rows| - 1], backend);
    }
  }

  lemma BackendIsTidy(rows: seq<Row>, backend: string)
    requires TidyRows(rows) && backend in Backends(rows)
    ensures '\n' !in backend && '\n' !in DisplayBackend(backend)
  {
    hide Backends;
    BackendMember(rows, backend);
  }

  lemma VersionTableIsTidy(rows: seq<Row>)
    requires TidyRows(rows)
    ensures BreakFree(TableLines(VersionTable(rows, Backends(rows))))
  {
    var backends := Backends(rows);
    var t := VersionTable(rows, backends);
    hide TableLines, TidyRows, Backends, VersionOf, DisplayBackend;
    forall i | 0 <= i < |t.rows|
      ensures BreakFree(t.rows[i])
    {
      BackendIsTidy(rows, backends[i]);
      VersionIsTidy(rows, backends[i]);
    }
    TableLinesAddNoBreak(t);
  }

  // ----- the tables of measurements

  lemma KeyIsTidy(sec: Section, rows: seq<Row>, fmt: Format, key: Key)
    requires TidyRows(rows) && TidyFormat(fmt) && key in Keys(sec, rows)
    ensures BreakFree(KeyCells(fmt, key))
  {
    var all := Collect(KeyIn(sec), rows);
    SortKeepsMembers(KeyLe, Distinct(all), key);
    DistinctElements(all);
    CollectMember(KeyIn(sec), rows, key);
    hide Collect, Sort, Distinct, TidyFormat;
    var i :| 0 <= i < |rows| && KeyIn(sec)(rows[i]) == Some(key);
    KeyOfTidyRow(sec, rows[i], fmt);
  }

  lemma KeyOfTidyRow(sec: Section, r: Row, fmt: Format)
    requires TidyRow(r) && TidyFormat(fmt)
    ensures KeyIn(sec)(r).Some? ==> BreakFree(KeyCells(fmt, KeyIn(sec)(r).value))
  {
    if KeyIn(sec)(r).Some? {
      assert GroupOf(sec)(r).Some?;
      var key := KeyOf(sec, r).value;
      assert KeyIn(sec)(r).value == key;
      forall i | 0 <= i < |key|
        ensures '\n' !in KeyCells(fmt, key)[i]
      {
        match sec case Primitive => case Handshake => case Transfer =>
      }
    }
  }

  lemma RatesAreTidy(fmt: Format, values: string -> Option<real>, backends: seq<string>)
    requires TidyFormat(fmt)
    ensures BreakFree(RateCells(fmt, values, backends)) && BreakFree(RatioCells(fmt, values, backends))
  {
    assert '\n' !in MISSING && '\n' !in "×";
    forall value
      ensures '\n' !in RateCell(fmt, value)
    {
      if value.Some? {
        var rate: real := value.value;
        assert '\n' !in fmt.rate(rate);
      }
    }
    forall value, baseline
      ensures '\n' !in RatioCell(fmt.ratio, value, baseline) && '\n' !in RatioCell(fmt.patchedRatio, value, baseline)
    {
    }
  }

  lemma HeadingsAreTidy(sec: Section, rows: seq<Row>)
    requires TidyRows(rows)
    ensures BreakFree(Headings(sec, Backends(rows)))
  {
    var backends := Backends(rows);
    hide TidyRows, Backends, DisplayBackend;
    forall i | 0 <= i < |backends|
      ensures '\n' !in BackendHeadings(sec, backends)[i]
    {
      BackendIsTidy(rows, backends[i]);
      assert '\n' !in Unit(sec);
    }
    assert BreakFree(KeyHeadings(sec)) by { FixedHeadings(); }
    assert BreakFree(RatioHeadings(backends)) by { FixedHeadings(); }
    BreakFreeConcat(KeyHeadings(sec), BackendHeadings(sec, backends));
    BreakFreeConcat(KeyHeadings(sec) + BackendHeadings(sec, backends), RatioHeadings(backends));
  }

  lemma FixedHeadings()
    ensures '\n' !in "Algorithm" && '\n' !in "Operation" && '\n' !in "Bytes" && '\n' !in "Cipher"
    ensures '\n' !in "OpenSSL / baseline" && '\n' !in "Patched / baseline"
  {
  }

  lemma SectionIsTidy(sec: Section, rows: seq<Row>, fmt: Format)
    requires TidyRows(rows) && TidyFormat(fmt)
    ensures BreakFree(SectionLines(sec, rows, Backends(rows), fmt))
  {
    var mine, backends := SectionRows(sec, rows), Backends(rows);
    var t := SectionTable(sec, mine, backends, fmt);
    forall r | r in mine
      ensures TidyRow(r)
    {
      SectionMember(sec, rows, r);
    }
    HeadingsAreTidy(sec, rows);
    hide TidyRow, TidyFormat, SectionRows, Backends, TableLines, Headings, KeyCells, RateCells, RatioCells, Keys;
    forall i | 0 <= i < |t.rows|
      ensures BreakFree(t.rows[i])
    {
      var key := Keys(sec, mine)[i];
      var values := Values(sec, mine, key);
      KeyIsTidy(sec, mine, fmt, key);
      RatesAreTidy(fmt, values, backends);
      BreakFreeConcat(KeyCells(fmt, key), RateCells(fmt, values, backends));
      BreakFreeConcat(KeyCells(fmt, key) + RateCells(fmt, values, backends), RatioCells(fmt, values, backends));
    }
    TableLinesAddNoBreak(t);
    TitleIsTidy(sec);
    BreakFreeConcat([Title(sec), ""], TableLines(t));
  }

  lemma TitleIsTidy(sec: Section)
    ensures BreakFree([Title(sec), ""])
  {
    match sec
    case Primitive => assert '\n' !in "### AEAD primitive throughput";
    case Handshake => assert '\n' !in "### TLS 1.3 full handshake";
    case Transfer => assert '\n' !in "### TLS 1.3 application-data throughput";
  }

  // ----- the report

  lemma ArchitectureIsTidy(rows: seq<Row>, a: string, fmt: Format)
    requires TidyRows(rows) && TidyFormat(fmt) && '\n' !in a
    ensures BreakFree(ArchitectureLines(rows, a, fmt))
  {
    VersionTableIsTidy(rows);
    SectionIsTidy(Primitive, rows, fmt);
    SectionIsTidy(Handshake, rows, fmt);
    SectionIsTidy(Transfer, rows, fmt);
    hide Backends, TableLines, SectionLines, VersionTable, TidyRows, TidyFormat;
    var versions := TableLines(VersionTable(rows, Backends(rows)));
    HeadingIsTidy(a);
    BreakFreeConcat(["## Architecture: `" + a + "`", ""], versions);
    BreakFreeConcat(["## Architecture: `" + a + "`", ""] + versions, Sections(rows, Backends(rows), fmt));
  }

  lemma HeadingIsTidy(a: string)
    requires '\n' !in a
    ensures BreakFree(["## Architecture: `" + a + "`", ""])
  {
    assert '\n' !in "## Architecture: `" + a + "`";
  }


  lemma PartIsTidy(rows: seq<Row>, a: string, fmt: Format)
    requires TidyRows(rows) && TidyFormat(fmt) && a in Architectures(rows)
    ensures BreakFree(ArchitectureLines(RowsOf(rows, a), a, fmt))
  {
    hide RowsOf, Architectures, ArchitectureLines, TidyFormat;
    ArchitectureNamed(rows, a);
    forall r | r in RowsOf(rows, a)
      ensures TidyRow(r)
    {
      ArchitectureMember(rows, a, r);
    }
    ArchitectureIsTidy(RowsOf(rows, a), a, fmt);
  }

  lemma {:induction false} ConcatIsTidy(parts: seq<seq<string>>)
    requires forall i :: 0 <= i < |parts| ==> BreakFree(parts[i])
    ensures BreakFree(Concat(parts))
  {
    if parts != [] {
      ConcatIsTidy(parts[1..]);
      BreakFreeConcat(parts[0], Concat(parts[1..]));
    }
  }

  lemma IntroIsTidy(title: string)
    requires '\n' !in title
    ensures BreakFree(Intro(title))
  {
    NotesAreTidy();
    hide MedianNote, MachineNote, RunnerNote;
    assert '\n' !in "# " + title;
  }

  lemma NotesAreTidy()
    ensures '\n' !in MedianNote() && '\n' !in MachineNote() && '\n' !in RunnerNote()
  {
    MedianNoteIsTidy();
    MachineNoteIsTidy();
    RunnerNoteIsTidy();
    hide MedianNote, MachineNote, RunnerNote;
  }

  lemma MedianNoteIsTidy()
    ensures '\n' !in MedianNote()
  {
    MedianPieces();
  }

  lemma MedianPieces()
    ensures '\n' !in "> Values are medians of the raw samples. "
    ensures '\n' !in "Higher is better."
  {
  }

  lemma MachineNoteIsTidy()
    ensures '\n' !in MachineNote()
  {
    MachineStart();
    MachineEnd();
  }

  lemma MachineStart()
    ensures '\n' !in "> Compare backends within one architecture; "
  {
  }

  lemma MachineEnd()
    ensures '\n' !in "runner hardware differs "
    ensures '\n' !in "across architectures."
  {
  }

  lemma RunnerNoteIsTidy()
    ensures '\n' !in RunnerNote()
  {
    RunnerPieces();
  }

  lemma RunnerPieces()
    ensures '\n' !in "> GitHub-hosted runner performance can "
    ensures '\n' !in "vary between workflow runs."
  {
  }

  /** Without line breaks in title, rows and formats, the text comes apart into the lines of the
      report. */
  lemma TidyTextIsReadBack(rows: seq<Row>, title: string, fmt: Format)
    requires TidyRows(rows) && TidyFormat(fmt) && '\n' !in title
    ensures SplitLines(ReportText(rows, title, fmt)) == ReportLines(rows, title, fmt)
  {
    TextIsReadBackExactlyWhen(rows, title, fmt);
    IntroIsTidy(title);
    hide TidyRows, TidyFormat, RowsOf, Architectures, ArchitectureLines, Intro, ReportText, SplitLines;
    var names := Architectures(rows);
    forall i | 0 <= i < |names|
      ensures BreakFree(Parts(rows, names, fmt)[i])
    {
      PartIsTidy(rows, names[i], fmt);
    }
    ConcatIsTidy(Parts(rows, names, fmt));
    BreakFreeConcat(Intro(title), Concat(Parts(rows, names, fmt)));
  }
}
