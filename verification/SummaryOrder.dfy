/** The report does not depend on the order in which result rows are read, if and only if rows
    of one architecture and backend agree on the version. */
module SummaryOrder {
  import opened Prelude
  import opened Sorting
  import opened MarkdownTable
  import opened Summary

  ghost predicate SameBackend(r: Row, q: Row) {
    ArchitectureOf(r) == ArchitectureOf(q) && r.backend.Some? && r.backend == q.backend
  }

  ghost predicate VersionsAgree(rows: seq<Row>) {
    forall r, q :: r in rows && q in rows && SameBackend(r, q) ==> VersionText(r) == VersionText(q)
  }

  lemma {:induction false} VersionFromARow(rows: seq<Row>, backend: string) returns (r: Row)
    requires exists q :: q in rows && q.backend == Some(backend)
    ensures r in rows && r.backend == Some(backend) && VersionText(r) == VersionOf(rows, backend)
  {
    if rows[|rows| - 1].backend == Some(backend) {
      r := rows[|rows| - 1];
    } else {
      var q :| q in rows && q.backend == Some(backend);
      assert rows == rows[..|rows| - 1] + [rows[|rows| - 1]];
      assert q in rows[..|rows| - 1];
      r := VersionFromARow(rows[..|rows| - 1], backend);
    }
  }

  lemma ArchitectureListed(rows: seq<Row>, r: Row)
    requires r in rows
    ensures ArchitectureOf(r) in Architectures(rows)
  {
    var all, a := Collect(ArchitectureIn(), rows), ArchitectureOf(r);
    SortKeepsMembers(ArchitectureLe, Distinct(all), a);
    DistinctElements(all);
    CollectMember(ArchitectureIn(), rows, a);
    var i :| 0 <= i < |rows| && rows[i] == r;
    assert ArchitectureIn()(rows[i]) == Some(a);
  }

  lemma VersionPermutes(rows: seq<Row>, rows': seq<Row>, a: string, b: string)
    requires multiset(rows) == multiset(rows') && VersionsAgree(rows)
    requires b in Backends(RowsOf(rows, a)) && b in Backends(RowsOf(rows', a))
    ensures VersionOf(RowsOf(rows, a), b) == VersionOf(RowsOf(rows', a), b)
  {
    hide Collect, Sort, Distinct;
    BackendMember(RowsOf(rows, a), b);
    BackendMember(RowsOf(rows', a), b);
    var r := VersionFromARow(RowsOf(rows, a), b);
    var q := VersionFromARow(RowsOf(rows', a), b);
    ArchitectureMember(rows, a, r);
    ArchitectureMember(rows', a, q);
    SameMembers(rows, rows');
    assert SameBackend(r, q);
  }

  lemma VersionTablePermutes(rows: seq<Row>, rows': seq<Row>, a: string)
    requires multiset(rows) == multiset(rows') && VersionsAgree(rows)
    ensures var mine, mine' := RowsOf(rows, a), RowsOf(rows', a);
            VersionTable(mine, Backends(mine)) == VersionTable(mine', Backends(mine'))
  {
    hide Collect, Sort, Distinct;
    CollectPermutes(OfArchitecture(a), rows, rows');
    NamesPermute(RowsOf(rows, a), RowsOf(rows', a));
    var backends := Backends(RowsOf(rows, a));
    forall i | 0 <= i < |backends|
      ensures VersionOf(RowsOf(rows, a), backends[i]) == VersionOf(RowsOf(rows', a), backends[i])
    {
      VersionPermutes(rows, rows', a, backends[i]);
    }
  }

  /** Up to the version table, nothing in the report depends on the order of the rows. */
  lemma TablesPermute(rows: seq<Row>, rows': seq<Row>, a: string, fmt: Format)
    requires multiset(rows) == multiset(rows')
    ensures var mine, mine' := RowsOf(rows, a), RowsOf(rows', a);
            && Backends(mine) == Backends(mine')
            && Sections(mine, Backends(mine), fmt) == Sections(mine', Backends(mine'), fmt)
  {
    CollectPermutes(OfArchitecture(a), rows, rows');
    SectionsPermute(RowsOf(rows, a), RowsOf(rows', a), fmt);
  }

  lemma ReportPermutes(rows: seq<Row>, rows': seq<Row>, title: string, fmt: Format)
    requires multiset(rows) == multiset(rows') && VersionsAgree(rows)
    ensures ReportLines(rows, title, fmt) == ReportLines(rows', title, fmt)
  {
    NamesPermute(rows, rows');
    var names := Architectures(rows);
    forall i | 0 <= i < |names|
      ensures ArchitectureLines(RowsOf(rows, names[i]), names[i], fmt) == ArchitectureLines(RowsOf(rows', names[i]), names[i], fmt)
    {
      VersionTablePermutes(rows, rows', names[i]);
      TablesPermute(rows, rows', names[i], fmt);
    }
    assert Parts(rows, names, fmt) == Parts(rows', names, fmt);
  }

  // ----- the premise is needed: swapping two rows that disagree changes one version in the text

  lemma Remove(rows: seq<Row>, r: Row) returns (rest: seq<Row>)
    requires r in rows
    ensures multiset(rest) + multiset{r} == multiset(rows)
  {
    var i :| 0 <= i < |rows| && rows[i] == r;
    rest := rows[..i] + rows[i + 1..];
    assert rows == rows[..i] + [r] + rows[i + 1..];
  }

  lemma TwoMore(core: seq<Row>, r: Row, q: Row)
    ensures multiset(core + [q, r]) == multiset(core) + multiset{r} + multiset{q}
  {
    assert core + [q, r] == core + [q] + [r];
  }

  /** rows without r and q, which are different. */
  lemma TakeTwo(rows: seq<Row>, r: Row, q: Row) returns (core: seq<Row>)
    requires r in rows && q in rows && r != q
    ensures multiset(core + [q, r]) == multiset(rows) == multiset(core + [r, q])
  {
    var rest := Remove(rows, r);
    assert q in multiset(rows) && q in multiset(rest);
    core := Remove(rest, q);
    TwoMore(core, r, q);
    TwoMore(core, q, r);
  }

  lemma OtherArchitecture(core: seq<Row>, r: Row, q: Row, a: string)
    requires ArchitectureOf(r) != a && ArchitectureOf(q) != a
    ensures RowsOf(core + [q, r], a) == RowsOf(core, a)
  {
    CollectAppend(OfArchitecture(a), core, [q, r]);
    assert [q, r][..1] == [q];
    assert RowsOf([q, r], a) == [];
  }

  lemma SameArchitecture(core: seq<Row>, r: Row, q: Row, a: string)
    requires ArchitectureOf(r) == a && ArchitectureOf(q) == a
    ensures RowsOf(core + [q, r], a) == RowsOf(core, a) + [q, r]
  {
    CollectAppend(OfArchitecture(a), core, [q, r]);
    assert [q, r][..1] == [q];
    assert RowsOf([q], a) == [q];
  }

  lemma LastTwo(mine: seq<Row>, r: Row, q: Row, b: string)
    requires r.backend == q.backend
    ensures VersionOf(mine + [q, r], b) == if r.backend == Some(b) then VersionText(r) else VersionOf(mine, b)
  {
    assert (mine + [q, r])[..|mine| + 1] == mine + [q];
    assert (mine + [q])[..|mine|] == mine;
  }

  function VersionLine(backend: string, version: string): string { Line(EscapeAll([DisplayBackend(backend), version])) }

  /** The lines of an architecture around the line of its i-th backend. */
  lemma AroundVersion(mine: seq<Row>, a: string, fmt: Format, i: nat)
    requires i < |Backends(mine)|
    ensures var rows, backends := VersionTable(mine, Backends(mine)).rows, Backends(mine);
            |rows| == |backends| && ArchitectureLines(mine, a, fmt) ==
              ["## Architecture: `" + a + "`", ""] + [Line(["Backend", "Version"]), Line(Dashes(2))] + RowLines(rows[..i])
              + [VersionLine(backends[i], VersionOf(mine, backends[i]))]
              + (RowLines(rows[i + 1..]) + [""] + Sections(mine, backends, fmt))
  {
    hide Sections, VersionOf, Backends, EscapeAll, Line, Dashes;
    var rows := VersionTable(mine, Backends(mine)).rows;
    assert RowLines(rows) == RowLines(rows[..i]) + [Line(EscapeAll(rows[i]))] + RowLines(rows[i + 1..]);
  }

  /** One architecture: the lines in front of and behind the version are the same for both orders. */
  lemma ArchitectureAround(mine: seq<Row>, r: Row, q: Row, a: string, fmt: Format) returns (before: seq<string>, behind: seq<string>)
    requires r.backend.Some? && r.backend == q.backend
    ensures var b := r.backend.value;
            && ArchitectureLines(mine + [q, r], a, fmt) == before + [VersionLine(b, VersionText(r))] + behind
            && ArchitectureLines(mine + [r, q], a, fmt) == before + [VersionLine(b, VersionText(q))] + behind
  {
    hide Collect, Sort, Distinct, ArchitectureLines, VersionOf, Backends, Sections, VersionLine, Line;
    var one, two, b := mine + [q, r], mine + [r, q], r.backend.value;
    SwapKeepsRows(mine, r, q);
    SectionsPermute(one, two, fmt);
    BackendMember(one, b);
    assert one[|mine| + 1] == r;
    var backends := Backends(one);
    BackendsDiffer(one);
    var i :| 0 <= i < |backends| && backends[i] == b;
    AroundVersion(one, a, fmt, i);
    AroundVersion(two, a, fmt, i);
    var t, t' := VersionTable(one, backends).rows, VersionTable(two, backends).rows;
    forall k | 0 <= k < |backends| && k != i
      ensures t[k] == t'[k]
    {
      assert backends[k] != b;
      LastTwo(mine, r, q, backends[k]);
      LastTwo(mine, q, r, backends[k]);
    }
    assert t[..i] == t'[..i] && t[i + 1..] == t'[i + 1..];
    LastTwo(mine, r, q, b);
    LastTwo(mine, q, r, b);
    before := ["## Architecture: `" + a + "`", ""] + [Line(["Backend", "Version"]), Line(Dashes(2))] + RowLines(t[..i]);
    behind := RowLines(t[i + 1..]) + [""] + Sections(one, backends, fmt);
  }

  lemma BackendsDiffer(rows: seq<Row>)
    ensures NoRepeats(Backends(rows))
  {
    NameOrders();
    DistinctElements(Collect(BackendIn(), rows));
    SortKeepsDistinct(BackendLe, Distinct(Collect(BackendIn(), rows)));
  }

  lemma ArchitecturesDiffer(rows: seq<Row>)
    ensures NoRepeats(Architectures(rows))
  {
    NameOrders();
    DistinctElements(Collect(ArchitectureIn(), rows));
    SortKeepsDistinct(ArchitectureLe, Distinct(Collect(ArchitectureIn(), rows)));
  }

  lemma ConcatAround<T>(parts: seq<seq<T>>, k: nat)
    requires k < |parts|
    ensures Concat(parts) == Concat(parts[..k]) + parts[k] + Concat(parts[k + 1..])
  {
    SplitAround(parts, k);
    hide *;
    ConcatAppend(parts[..k] + [parts[k]], parts[k + 1..]);
    ConcatAppend(parts[..k], [parts[k]]);
    ConcatSingle(parts[k]);
  }

  lemma SplitAround<T>(s: seq<T>, k: nat)
    requires k < |s|
    ensures s == s[..k] + [s[k]] + s[k + 1..]
  {
  }

  lemma ConcatSingle<T>(part: seq<T>)
    ensures Concat([part]) == part
  {
    assert [part][1..] == [];
  }

  lemma PartsElsewhere(core: seq<Row>, r: Row, q: Row, names: seq<string>, k: nat, fmt: Format)
    requires ArchitectureOf(r) == ArchitectureOf(q) && NoRepeats(names) && k < |names| && names[k] == ArchitectureOf(r)
    ensures var p, p' := Parts(core + [q, r], names, fmt), Parts(core + [r, q], names, fmt);
            p[..k] == p'[..k] && p[k + 1..] == p'[k + 1..]
  {
    hide RowsOf, ArchitectureLines;
    var p, p' := Parts(core + [q, r], names, fmt), Parts(core + [r, q], names, fmt);
    forall i | 0 <= i < |names| && i != k
      ensures p[i] == p'[i]
    {
      assert names[i] != names[k];
      OtherArchitecture(core, r, q, names[i]);
      OtherArchitecture(core, q, r, names[i]);
    }
  }

  /** The part of the two rows' architecture among all parts. */
  lemma PartWithRows(core: seq<Row>, r: Row, q: Row, names: seq<string>, k: nat, title: string, fmt: Format)
    requires ArchitectureOf(r) == ArchitectureOf(q) && k < |names| && names[k] == ArchitectureOf(r)
    requires names == Architectures(core + [q, r])
    ensures var p, a := Parts(core + [q, r], names, fmt), names[k];
            ReportLines(core + [q, r], title, fmt) ==
              Intro(title) + (Concat(p[..k]) + ArchitectureLines(RowsOf(core, a) + [q, r], a, fmt) + Concat(p[k + 1..]))
  {
    hide RowsOf, ArchitectureLines, Concat, Architectures, Intro;
    SameArchitecture(core, r, q, names[k]);
    ConcatAround(Parts(core + [q, r], names, fmt), k);
  }

  lemma SwapKeepsRows(core: seq<Row>, r: Row, q: Row)
    ensures multiset(core + [q, r]) == multiset(core + [r, q])
  {
    TwoMore(core, r, q);
    TwoMore(core, q, r);
  }

  /** The whole report: with two disagreeing rows at the end, swapping them changes one line. */
  lemma ReportAround(core: seq<Row>, r: Row, q: Row, title: string, fmt: Format) returns (before: seq<string>, behind: seq<string>)
    requires SameBackend(r, q)
    ensures DifferIn(before, behind, core, r, q, title, fmt)
  {
    var names, k := PlaceAmongNames(core, r, q);
    before, behind := ReportAroundPart(core, r, q, names, k, title, fmt);
  }

  /** The two orders have the same report but for the version of one backend. */
  ghost predicate DifferIn(before: seq<string>, behind: seq<string>, core: seq<Row>, r: Row, q: Row, title: string, fmt: Format)
    requires r.backend.Some?
  {
    && ReportLines(core + [q, r], title, fmt) == before + [VersionLine(r.backend.value, VersionText(r))] + behind
    && ReportLines(core + [r, q], title, fmt) == before + [VersionLine(r.backend.value, VersionText(q))] + behind
  }

  lemma PlaceAmongNames(core: seq<Row>, r: Row, q: Row) returns (names: seq<string>, k: nat)
    requires ArchitectureOf(r) == ArchitectureOf(q)
    ensures names == Architectures(core + [q, r]) == Architectures(core + [r, q]) && NoRepeats(names)
    ensures k < |names| && names[k] == ArchitectureOf(r)
  {
    var one, two := core + [q, r], core + [r, q];
    assert one[|core| + 1] == r;
    hide Architectures;
    SwapKeepsRows(core, r, q);
    NamesPermute(one, two);
    ArchitectureListed(one, r);
    ArchitecturesDiffer(one);
    names := Architectures(one);
    k :| 0 <= k < |names| && names[k] == ArchitectureOf(r);
  }

  lemma ReportAroundPart(core: seq<Row>, r: Row, q: Row, names: seq<string>, k: nat, title: string, fmt: Format)
    returns (before: seq<string>, behind: seq<string>)
    requires ArchitectureOf(r) == ArchitectureOf(q) && r.backend.Some? && r.backend == q.backend
    requires names == Architectures(core + [q, r]) == Architectures(core + [r, q]) && NoRepeats(names)
    requires k < |names| && names[k] == ArchitectureOf(r)
    ensures DifferIn(before, behind, core, r, q, title, fmt)
  {
    hide Architectures, Parts, ReportLines, VersionLine, VersionText, RowsOf, ArchitectureLines, Intro, Concat, ArchitectureOf;
    var x, y := ArchitectureAround(RowsOf(core, names[k]), r, q, names[k], fmt);
    PartsElsewhere(core, r, q, names, k, fmt);
    var p := Parts(core + [q, r], names, fmt);
    before, behind := Intro(title) + Concat(p[..k]) + x, y + Concat(p[k + 1..]);
    PartWithRows(core, r, q, names, k, title, fmt);
    PartWithRows(core, q, r, names, k, title, fmt);
    Glue(Intro(title), Concat(p[..k]), x, [VersionLine(r.backend.value, VersionText(r))], y, Concat(p[k + 1..]));
    Glue(Intro(title), Concat(p[..k]), x, [VersionLine(r.backend.value, VersionText(q))], y, Concat(p[k + 1..]));
  }

  lemma Glue(intro: seq<string>, front: seq<string>, x: seq<string>, v: seq<string>, y: seq<string>, rest: seq<string>)
    ensures intro + (front + (x + v + y) + rest) == intro + front + x + v + (y + rest)
  {
  }

  // ----- from lines to text

  function Before(lines: seq<string>): string {
    if lines == [] then "" else lines[0] + "\n" + Before(lines[1..])
  }

  function Behind(lines: seq<string>): string { if lines == [] then "" else "\n" + Join("\n", lines) }

  lemma {:induction false} JoinAround(before: seq<string>, line: string, behind: seq<string>)
    ensures Join("\n", before + [line] + behind) == Before(before) + line + Behind(behind)
  {
    hide Join;
    if before == [] {
      JoinFirst(line, behind);
      assert before + [line] + behind == [line] + behind;
      assert "" + line == line;
    } else {
      var rest := before[1..] + [line] + behind;
      JoinAround(before[1..], line, behind);
      JoinFirst(before[0], rest);
      assert before + [line] + behind == [before[0]] + rest;
      hide Before, Behind;
      Regrouped(before[0], "\n", Before(before[1..]), line, Behind(behind));
    }
  }

  lemma Regrouped(a: string, b: string, c: string, d: string, e: string)
    ensures a + (b + (c + d + e)) == a + b + c + d + e
  {
  }

  lemma JoinFirst(line: string, behind: seq<string>)
    ensures Join("\n", [line] + behind) == line + Behind(behind)
  {
    assert ([line] + behind)[1..] == behind;
  }

  // ----- the text is the lines: stripping its end and adding a line break changes nothing

  /** The last line is empty and the one before it ends with a visible character. */
  predicate Ended(lines: seq<string>) {
    && |lines| >= 2 && lines[|lines| - 1] == "" && EndsVisibly(lines[|lines| - 2])
  }

  predicate EndsVisibly(line: string) { line != "" && !IsSpace(line[|line| - 1]) }

  lemma EndedAfter(front: seq<string>, lines: seq<string>)
    requires Ended(lines)
    ensures Ended(front + lines)
  {
  }

  lemma TableLinesEnd(t: Table)
    ensures Ended(TableLines(t))
  {
    hide Join, EscapeAll, Dashes, IsSpace;
    assert !IsSpace('|') by { BarIsVisible(); }
    var lines := TableLines(t);
    if t.rows == [] {
      assert lines[|lines| - 2] == Line(Dashes(|t.headings|));
    } else {
      assert lines[|lines| - 2] == Line(EscapeAll(t.rows[|t.rows| - 1]));
    }
  }

  lemma BarIsVisible()
    ensures !IsSpace('|') && !IsSpace('.')
  {
  }

  lemma SectionLinesEnd(sec: Section, rows: seq<Row>, backends: seq<string>, fmt: Format)
    ensures var lines := SectionLines(sec, rows, backends, fmt);
            lines == [] || Ended(lines)
  {
    hide TableLines, SectionTable, Ended;
    var mine := SectionRows(sec, rows);
    if mine != [] {
      TableLinesEnd(SectionTable(sec, mine, backends, fmt));
      EndedAfter([Title(sec), ""], TableLines(SectionTable(sec, mine, backends, fmt)));
    }
  }

  lemma EndedBefore(lines: seq<string>, more: seq<string>)
    requires Ended(lines) && (more == [] || Ended(more))
    ensures Ended(lines + more)
  {
    if more == [] {
      assert lines + more == lines;
    }
  }

  lemma ArchitectureLinesEnd(rows: seq<Row>, a: string, fmt: Format)
    ensures Ended(ArchitectureLines(rows, a, fmt))
  {
    hide TableLines, VersionTable, Backends, SectionLines, Ended;
    var backends := Backends(rows);
    var head, versions := ["## Architecture: `" + a + "`", ""], TableLines(VersionTable(rows, backends));
    var one, two, three := SectionLines(Primitive, rows, backends, fmt), SectionLines(Handshake, rows, backends, fmt),
                           SectionLines(Transfer, rows, backends, fmt);
    TableLinesEnd(VersionTable(rows, backends));
    SectionLinesEnd(Primitive, rows, backends, fmt);
    SectionLinesEnd(Handshake, rows, backends, fmt);
    SectionLinesEnd(Transfer, rows, backends, fmt);
    EndedAfter(head, versions);
    EndedBefore(head + versions, one);
    EndedBefore(head + versions + one, two);
    EndedBefore(head + versions + one + two, three);
    assert head + versions + (one + two + three) == head + versions + one + two + three;
  }

  lemma {:induction false} ConcatEnds(front: seq<string>, parts: seq<seq<string>>)
    requires Ended(front) && forall i :: 0 <= i < |parts| ==> Ended(parts[i])
    ensures Ended(front + Concat(parts))
    decreases |parts|
  {
    hide Ended;
    if parts == [] {
      assert front + Concat(parts) == front;
    } else {
      EndedBefore(front, parts[0]);
      ConcatEnds(front + parts[0], parts[1..]);
      assert front + parts[0] + Concat(parts[1..]) == front + Concat(parts);
    }
  }

  lemma ReportLinesEnd(rows: seq<Row>, title: string, fmt: Format)
    ensures Ended(ReportLines(rows, title, fmt))
  {
    hide ArchitectureLines, RowsOf, Architectures, Concat;
    BarIsVisible();
    IntroEnds(title);
    hide Intro, Ended;
    var names := Architectures(rows);
    forall i | 0 <= i < |names|
      ensures Ended(Parts(rows, names, fmt)[i])
    {
      ArchitectureLinesEnd(RowsOf(rows, names[i]), names[i], fmt);
    }
    ConcatEnds(Intro(title), Parts(rows, names, fmt));
  }

  lemma IntroEnds(title: string)
    ensures Ended(Intro(title))
  {
    assert RunnerNote()[|RunnerNote()| - 1] == '.';
    BarIsVisible();
    hide MedianNote, MachineNote, RunnerNote, IsSpace;
  }

  lemma {:induction false} BeforeLast(lines: seq<string>, line: string)
    ensures Before(lines + [line]) == Before(lines) + line + "\n"
  {
    if lines == [] {
      assert [line][1..] == [] && "" + line == line;
    } else {
      BeforeLast(lines[1..], line);
      BeforeFirst(lines[0], lines[1..]);
      BeforeFirst(lines[0], lines[1..] + [line]);
      hide Before;
      assert lines == [lines[0]] + lines[1..] && lines + [line] == [lines[0]] + (lines[1..] + [line]);
      Regrouped(lines[0], "\n", Before(lines[1..]), line, "\n");
    }
  }

  lemma BeforeFirst(line: string, rest: seq<string>)
    ensures Before([line] + rest) == line + "\n" + Before(rest)
  {
    assert ([line] + rest)[1..] == rest;
  }

  /** One line break is stripped, and one is added. */
  lemma StripOnce(text: string)
    requires EndsVisibly(text)
    ensures RStrip(text + "\n") == text
  {
    assert (text + "\n")[..|text + "\n"| - 1] == text;
    assert IsSpace('\n');
  }

  lemma EndedText(lines: seq<string>)
    requires Ended(lines)
    ensures RStrip(Join("\n", lines)) + "\n" == Join("\n", lines)
  {
    var n := |lines| - 2;
    var front, line := lines[..n], lines[n];
    assert lines == (front + [line]) + [""] + [];
    JoinAround(front + [line], "", []);
    BeforeLast(front, line);
    var text := Before(front) + line;
    assert text + "\n" + "" + "" == text + "\n";
    assert EndsVisibly(text);
    hide RStrip, Join, Before;
    StripOnce(text);
  }

  /** The text of the report is its lines, joined. */
  lemma TextIsJoined(rows: seq<Row>, title: string, fmt: Format)
    ensures ReportText(rows, title, fmt) == Join("\n", ReportLines(rows, title, fmt))
  {
    ReportLinesEnd(rows, title, fmt);
    hide ReportLines, Ended;
    EndedText(ReportLines(rows, title, fmt));
  }

  /** The text comes apart into the lines of the report if and only if none of them contains a
      line break. */
  lemma TextIsReadBackExactlyWhen(rows: seq<Row>, title: string, fmt: Format)
    ensures SplitLines(ReportText(rows, title, fmt)) == ReportLines(rows, title, fmt)
       <==> BreakFree(ReportLines(rows, title, fmt))
  {
    TextIsJoined(rows, title, fmt);
    ReportLinesEnd(rows, title, fmt);
    hide ReportLines, ReportText;
    LinesAreReadBackExactlyWhen(ReportLines(rows, title, fmt));
  }

  // ----- the version in the text

  /** A text with a version in it determines the version. */
  lemma VersionInText(before: seq<string>, behind: seq<string>, backend: string, v: string, w: string)
    requires Join("\n", before + [VersionLine(backend, v)] + behind) == Join("\n", before + [VersionLine(backend, w)] + behind)
    ensures v == w
  {
    var front, back := Before(before) + "| " + Escape(DisplayBackend(backend)) + " | ", " |" + Behind(behind);
    VersionAround(before, behind, backend, v);
    VersionAround(before, behind, backend, w);
    hide Escape, Join, Before, Behind;
    CancelBothSides(front, Escape(v), Escape(w), back);
    UnescapeUndoesEscape(v);
    UnescapeUndoesEscape(w);
  }

  lemma VersionAround(before: seq<string>, behind: seq<string>, backend: string, v: string)
    ensures Join("\n", before + [VersionLine(backend, v)] + behind)
         == Before(before) + "| " + Escape(DisplayBackend(backend)) + " | " + Escape(v) + (" |" + Behind(behind))
  {
    var name, version := Escape(DisplayBackend(backend)), Escape(v);
    VersionLineIs(backend, v);
    JoinAround(before, VersionLine(backend, v), behind);
    hide *;
    Around(Before(before), "| ", name, " | ", version, " |", Behind(behind));
  }

  lemma VersionLineIs(backend: string, v: string)
    ensures VersionLine(backend, v) == "| " + (Escape(DisplayBackend(backend)) + " | " + Escape(v)) + " |"
  {
    hide Escape, DisplayBackend;
    assert Join(" | ", [Escape(v)]) == Escape(v);
    assert [Escape(DisplayBackend(backend)), Escape(v)][1..] == [Escape(v)];
    assert EscapeAll([DisplayBackend(backend), v]) == [Escape(DisplayBackend(backend)), Escape(v)];
  }

  lemma Around(a: string, b: string, c: string, d: string, e: string, f: string, g: string)
    ensures a + (b + (c + d + e) + f) + g == a + b + c + d + e + (f + g)
  {
  }

  lemma CancelBothSides(front: string, x: string, y: string, back: string)
    requires front + x + back == front + y + back
    ensures x == y
  {
    assert |x| == |y|;
    assert x == (front + x + back)[|front|..|front| + |x|];
    assert y == (front + y + back)[|front|..|front| + |y|];
  }

  lemma OrdersDiffer(core: seq<Row>, r: Row, q: Row, title: string, fmt: Format)
    requires SameBackend(r, q) && VersionText(r) != VersionText(q)
    ensures ReportText(core + [q, r], title, fmt) != ReportText(core + [r, q], title, fmt)
  {
    hide ReportText, ReportLines, VersionLine, Join, VersionText;
    var before, behind := ReportAround(core, r, q, title, fmt);
    TextIsJoined(core + [q, r], title, fmt);
    TextIsJoined(core + [r, q], title, fmt);
    if ReportText(core + [q, r], title, fmt) == ReportText(core + [r, q], title, fmt) {
      VersionInText(before, behind, r.backend.value, VersionText(r), VersionText(q));
    }
  }

  lemma OtherOrder(rows: seq<Row>, r: Row, q: Row, title: string, fmt: Format) returns (rows': seq<Row>)
    requires r in rows && q in rows && SameBackend(r, q) && VersionText(r) != VersionText(q)
    ensures multiset(rows') == multiset(rows) && ReportText(rows', title, fmt) != ReportText(rows, title, fmt)
  {
    hide *;
    var core := TakeTwo(rows, r, q);
    OrdersDiffer(core, r, q, title, fmt);
    rows' := core + [q, r];
    if ReportText(rows', title, fmt) == ReportText(rows, title, fmt) {
      rows' := core + [r, q];
    }
  }

  lemma DisagreementShows(rows: seq<Row>, title: string, fmt: Format)
    requires !VersionsAgree(rows)
    ensures exists rows' :: multiset(rows') == multiset(rows) && ReportText(rows', title, fmt) != ReportText(rows, title, fmt)
  {
    var r, q :| r in rows && q in rows && SameBackend(r, q) && VersionText(r) != VersionText(q);
    hide *;
    var rows' := OtherOrder(rows, r, q, title, fmt);
  }

  /** The text of the report is the same for every order of the rows if and only if rows of one
      architecture and backend agree on the version. */
  lemma TextPermutesExactlyWhen(rows: seq<Row>, title: string, fmt: Format)
    ensures (forall rows' :: multiset(rows') == multiset(rows) ==>
             ReportText(rows', title, fmt) == ReportText(rows, title, fmt))
       <==> VersionsAgree(rows)
  {
    hide ReportLines;
    if VersionsAgree(rows) {
      forall rows' | multiset(rows') == multiset(rows)
        ensures ReportText(rows', title, fmt) == ReportText(rows, title, fmt)
      {
        ReportPermutes(rows, rows', title, fmt);
      }
    } else {
      DisagreementShows(rows, title, fmt);
    }
  }

  /** The same condition decides whether the lines depend on the order. */
  lemma ReportPermutesExactlyWhen(rows: seq<Row>, title: string, fmt: Format)
    ensures (forall rows' :: multiset(rows') == multiset(rows) ==>
             ReportLines(rows', title, fmt) == ReportLines(rows, title, fmt))
       <==> VersionsAgree(rows)
  {
    hide ReportLines;
    if VersionsAgree(rows) {
      forall rows' | multiset(rows') == multiset(rows)
        ensures ReportLines(rows', title, fmt) == ReportLines(rows, title, fmt)
      {
        ReportPermutes(rows, rows', title, fmt);
      }
    } else {
      DisagreementShows(rows, title, fmt);
    }
  }
}
