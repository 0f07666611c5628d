/** What the report says where, in the words that are printed: headings, titles, the order of
    architectures and sections, and the versions. */
module SummaryLayout {
  import opened Prelude
  import opened Sorting
  import opened MarkdownTable
  import opened Summary
  import opened SummaryOrder

  /** text names the backend: the known ones by the names of their libraries, others as they are. */
  predicate Names(text: string, backend: string) {
    && (backend == "openssl" ==> text == "OpenSSL")
    && (backend == "libressl" ==> text == "LibreSSL baseline")
    && (backend == "libressl-patched" ==> text == "LibreSSL patched")
    && (backend != "openssl" && backend != "libressl" && backend != "libressl-patched" ==> text == backend)
  }

  lemma DisplayNames(backend: string)
    ensures Names(DisplayBackend(backend), backend)
  {
  }

  /** text is the name of the backend with the unit of the section behind it. */
  ghost predicate IsColumnOf(text: string, backend: string, unit: string) {
    exists name :: Names(name, backend) && text == name + unit
  }

  /** The headings: the fields of the key, one column for each backend, and a column for each
      ratio if and only if both of its backends occur. */
  lemma HeadingsAre(sec: Section, backends: seq<string>)
    ensures var h, unit := Headings(sec, backends), if sec == Handshake then " handshakes/s" else " MiB/s";
            var fields := match sec
                          case Primitive => ["Algorithm", "Operation", "Bytes"]
                          case Handshake => ["Cipher"]
                          case Transfer => ["Cipher", "Bytes"];
            && |h| >= |fields| + |backends| && h[..|fields|] == fields
            && (forall j :: 0 <= j < |backends| ==>
                IsColumnOf(h[|fields| + j], backends[j], unit))
            && h[|fields| + |backends|..]
               == (if "openssl" in backends && "libressl" in backends then ["OpenSSL / baseline"] else [])
                  + (if "libressl-patched" in backends && "libressl" in backends then ["Patched / baseline"] else [])
  {
    FixedHeadingsAre(sec, backends);
    HeadingParts(sec, backends);
    ColumnsAre(sec, backends);
    hide *;
  }

  lemma FixedHeadingsAre(sec: Section, backends: seq<string>)
    ensures KeyHeadings(sec) == match sec
                                case Primitive => ["Algorithm", "Operation", "Bytes"]
                                case Handshake => ["Cipher"]
                                case Transfer => ["Cipher", "Bytes"]
    ensures Unit(sec) == if sec == Handshake then " handshakes/s" else " MiB/s"
    ensures RatioHeadings(backends) ==
            (if "openssl" in backends && "libressl" in backends then ["OpenSSL / baseline"] else [])
            + (if "libressl-patched" in backends && "libressl" in backends then ["Patched / baseline"] else [])
  {
  }

  lemma HeadingParts(sec: Section, backends: seq<string>)
    ensures var h, n := Headings(sec, backends), |KeyHeadings(sec)|;
            && |h| >= n + |backends| && h[..n] == KeyHeadings(sec) && h[n + |backends|..] == RatioHeadings(backends)
            && forall j :: 0 <= j < |backends| ==> h[n + j] == BackendHeadings(sec, backends)[j]
  {
    hide KeyHeadings, BackendHeadings, RatioHeadings;
  }

  lemma ColumnsAre(sec: Section, backends: seq<string>)
    ensures forall j :: 0 <= j < |backends| ==> IsColumnOf(BackendHeadings(sec, backends)[j], backends[j], Unit(sec))
  {
    hide Unit, Names, DisplayBackend;
    forall j | 0 <= j < |backends|
      ensures IsColumnOf(BackendHeadings(sec, backends)[j], backends[j], Unit(sec))
    {
      DisplayNames(backends[j]);
    }
  }

  // ----- versions

  lemma {:induction false} VersionIsLast(rows: seq<Row>, backend: string) returns (k: nat)
    requires exists r :: r in rows && r.backend == Some(backend)
    ensures k < |rows| && rows[k].backend == Some(backend)
    ensures forall m :: k < m < |rows| ==> rows[m].backend != Some(backend)
    ensures VersionOf(rows, backend) == if rows[k].version.Some? then rows[k].version.value else "unknown"
  {
    var last := |rows| - 1;
    if rows[last].backend == Some(backend) {
      k := last;
    } else {
      var r :| r in rows && r.backend == Some(backend);
      assert rows == rows[..last] + [rows[last]];
      assert r in rows[..last];
      k := VersionIsLast(rows[..last], backend);
    }
  }

  /** Every backend has a line in the version table, with its name and the version in the last of
      its rows. */
  lemma VersionsShown(rows: seq<Row>, i: nat) returns (k: nat)
    requires i < |Backends(rows)|
    ensures var t, b := VersionTable(rows, Backends(rows)), Backends(rows)[i];
            && t.headings == ["Backend", "Version"] && |t.rows| == |Backends(rows)|
            && k < |rows| && rows[k].backend == Some(b)
            && (forall m :: k < m < |rows| ==> rows[m].backend != Some(b))
            && |t.rows[i]| == 2 && Names(t.rows[i][0], b)
            && t.rows[i][1] == if rows[k].version.Some? then rows[k].version.value else "unknown"
  {
    var b := Backends(rows)[i];
    hide Backends;
    BackendMember(rows, b);
    k := VersionIsLast(rows, b);
    DisplayNames(b);
  }

  // ----- one architecture

  /** A title and a table, or nothing if there are no rows for it. */
  function Block(title: string, mine: seq<Row>, t: Table): seq<string> {
    if mine == [] then [] else [title, ""] + TableLines(t)
  }

  /** The part of an architecture: its heading, the versions, and the tables of AEAD rows,
      handshakes and transfers, in this order. */
  lemma ArchitectureOutline(rows: seq<Row>, a: string, fmt: Format)
    returns (aead: seq<Row>, handshakes: seq<Row>, transfers: seq<Row>)
    ensures forall r :: r in aead <==> r in rows && r.algorithm.Some?
    ensures forall r :: r in handshakes <==> r in rows && r.benchmark == Some("tls-handshake")
    ensures forall r :: r in transfers <==> r in rows && r.benchmark == Some("tls-transfer")
    ensures var backends := Backends(rows);
            ArchitectureLines(rows, a, fmt) ==
              ["## Architecture: `" + a + "`", ""]
              + TableLines(VersionTable(rows, backends))
              + Block("### AEAD primitive throughput", aead, SectionTable(Primitive, aead, backends, fmt))
              + Block("### TLS 1.3 full handshake", handshakes, SectionTable(Handshake, handshakes, backends, fmt))
              + Block("### TLS 1.3 application-data throughput", transfers, SectionTable(Transfer, transfers, backends, fmt))
  {
    aead, handshakes, transfers := SectionRows(Primitive, rows), SectionRows(Handshake, rows), SectionRows(Transfer, rows);
    hide SectionRows, Backends, TableLines, VersionTable, SectionTable;
    forall r: Row
      ensures r in aead <==> r in rows && r.algorithm.Some?
      ensures r in handshakes <==> r in rows && r.benchmark == Some("tls-handshake")
      ensures r in transfers <==> r in rows && r.benchmark == Some("tls-transfer")
    {
      SectionMember(Primitive, rows, r);
      SectionMember(Handshake, rows, r);
      SectionMember(Transfer, rows, r);
    }
    var backends := Backends(rows);
    var head, versions := ["## Architecture: `" + a + "`", ""], TableLines(VersionTable(rows, backends));
    assert SectionLines(Primitive, rows, backends, fmt) ==
           Block("### AEAD primitive throughput", aead, SectionTable(Primitive, aead, backends, fmt));
    assert SectionLines(Handshake, rows, backends, fmt) ==
           Block("### TLS 1.3 full handshake", handshakes, SectionTable(Handshake, handshakes, backends, fmt));
    assert SectionLines(Transfer, rows, backends, fmt) ==
           Block("### TLS 1.3 application-data throughput", transfers, SectionTable(Transfer, transfers, backends, fmt));
    hide SectionLines, Block;
    Regroup(head, versions, SectionLines(Primitive, rows, backends, fmt), SectionLines(Handshake, rows, backends, fmt),
            SectionLines(Transfer, rows, backends, fmt));
  }

  lemma Regroup(a: seq<string>, b: seq<string>, c: seq<string>, d: seq<string>, e: seq<string>)
    ensures a + b + (c + d + e) == a + b + c + d + e
  {
  }

  // ----- the whole report

  /** Every architecture once, the known ones first in their fixed order, the others by name. */
  lemma ArchitecturesAreCanonical(rows: seq<Row>, i: nat, j: nat)
    requires i < j < |Architectures(rows)|
    ensures var names := Architectures(rows);
            && names[i] != names[j]
            && names[j] != "x86_64"
            && (names[j] == "arm64" ==> names[i] == "x86_64")
            && (names[i] != "x86_64" && names[i] != "arm64" ==> StringBefore(names[i], names[j]))
  {
    var all := Collect(ArchitectureIn(), rows);
    NameOrders();
    SortSorts(ArchitectureLe, Distinct(all));
    var a, b := Architectures(rows)[i], Architectures(rows)[j];
    assert ArchitectureLe(a, b);
    ArchitecturesDiffer(rows);
    hide Architectures;
    assert a != b;
    if a != "x86_64" && a != "arm64" {
      StringLeMeans(a, b);
    }
  }

  /** An architecture is listed if and only if a row names it, or names none and it is "unknown". */
  lemma ArchitectureListedExactlyWhen(rows: seq<Row>, a: string)
    ensures a in Architectures(rows) <==>
            exists r :: r in rows && (r.architecture == Some(a) || (r.architecture.None? && a == "unknown"))
  {
    hide Architectures;
    forall r: Row
      ensures ArchitectureOf(r) == a <==> r.architecture == Some(a) || (r.architecture.None? && a == "unknown")
    {
    }
    if r :| r in rows && ArchitectureOf(r) == a {
      ArchitectureListed(rows, r);
    }
    if a in Architectures(rows) {
      ArchitectureNamed(rows, a);
    }
  }

  lemma ArchitectureNamed(rows: seq<Row>, a: string)
    requires a in Architectures(rows)
    ensures exists r :: r in rows && ArchitectureOf(r) == a
  {
    var all := Collect(ArchitectureIn(), rows);
    SortKeepsMembers(ArchitectureLe, Distinct(all), a);
    DistinctElements(all);
    CollectMember(ArchitectureIn(), rows, a);
    var i :| 0 <= i < |rows| && ArchitectureIn()(rows[i]) == Some(a);
    assert rows[i] in rows;
  }

  /** The report begins with its title and three notes, and then has the parts of the
      architectures. The k-th part is about the rows of the k-th architecture. */
  lemma ReportOutline(rows: seq<Row>, title: string, fmt: Format, k: nat) returns (before: seq<string>, mine: seq<Row>, behind: seq<string>)
    requires k < |Architectures(rows)|
    ensures var a := Architectures(rows)[k];
            && ReportLines(rows, title, fmt) == before + ArchitectureLines(mine, a, fmt) + behind
            && |before| >= 6 && before[..6] ==
               ["# " + title, "", MedianNote(), MachineNote(), RunnerNote(), ""]
            && (forall r :: r in mine <==>
                r in rows && (r.architecture == Some(a) || (r.architecture.None? && a == "unknown")))
            && (k == 0 ==> |before| == 6) && (k + 1 == |Architectures(rows)| ==> behind == [])
  {
    var names := Architectures(rows);
    var a := names[k];
    mine := RowsOf(rows, a);
    forall r: Row
      ensures r in mine <==> r in rows && (r.architecture == Some(a) || (r.architecture.None? && a == "unknown"))
    {
      ArchitectureMember(rows, a, r);
    }
    before, behind := PartInReport(rows, title, fmt, k);
  }

  lemma PartInReport(rows: seq<Row>, title: string, fmt: Format, k: nat) returns (before: seq<string>, behind: seq<string>)
    requires k < |Architectures(rows)|
    ensures var a := Architectures(rows)[k];
            ReportLines(rows, title, fmt) == before + ArchitectureLines(RowsOf(rows, a), a, fmt) + behind
    ensures |before| >= 6 && before[..6] == ["# " + title, "", MedianNote(), MachineNote(), RunnerNote(), ""]
    ensures (k == 0 ==> |before| == 6) && (k + 1 == |Architectures(rows)| ==> behind == [])
  {
    var names := Architectures(rows);
    var parts := Parts(rows, names, fmt);
    assert parts[k] == ArchitectureLines(RowsOf(rows, names[k]), names[k], fmt);
    ReportLinesAre(rows, title, fmt);
    hide *;
    ConcatAround(parts, k);
    EndsOfParts(parts, k);
    before, behind := Intro(title) + Concat(parts[..k]), Concat(parts[k + 1..]);
    Front(Intro(title), Concat(parts[..k]), parts[k], behind);
  }

  lemma ReportLinesAre(rows: seq<Row>, title: string, fmt: Format)
    ensures ReportLines(rows, title, fmt) == Intro(title) + Concat(Parts(rows, Architectures(rows), fmt))
    ensures |Parts(rows, Architectures(rows), fmt)| == |Architectures(rows)|
    ensures |Intro(title)| == 6 && Intro(title) == ["# " + title, "", MedianNote(), MachineNote(), RunnerNote(), ""]
  {
    hide MedianNote, MachineNote, RunnerNote, Architectures, ArchitectureLines, Concat;
  }

  lemma EndsOfParts(parts: seq<seq<string>>, k: nat)
    requires k < |parts|
    ensures (k == 0 ==> Concat(parts[..k]) == []) && (k + 1 == |parts| ==> Concat(parts[k + 1..]) == [])
  {
  }

  lemma Front(a: seq<string>, b: seq<string>, c: seq<string>, d: seq<string>)
    ensures (a + b)[..|a|] == a && a + (b + c + d) == (a + b) + c + d
  {
  }
}
