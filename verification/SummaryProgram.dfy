/** The loops of scripts/summarize_results.py: dictionaries and lists are filled row by row,
    and a missing field ends the program (None stands for Python's KeyError). */
module SummaryProgram {
  import opened Prelude
  import opened Sorting
  import opened MarkdownTable
  import opened Summary
  import opened SummaryCounts

  /** A row that can be aggregated: it is no sample, or it has all fields of its key. */
  predicate Aggregable(sec: Section, r: Row) {
    Metric(sec, r).Some? ==> KeyOf(sec, r).Some? && r.backend.Some?
  }

  /** A row the program does not choke on. */
  predicate Complete(r: Row) {
    && r.backend.Some?
    && forall sec :: InSection(sec, r) ==> Aggregable(sec, r)
  }

  /** Every row has a backend. One with an algorithm and a throughput has operation and size, a
      handshake with a rate a cipher, and a transfer with a throughput cipher and size. */
  lemma CompleteExactlyWhen(r: Row)
    ensures Complete(r) <==>
            && r.backend.Some?
            && (r.algorithm.Some? && r.mibPerSecond.Some? ==> r.operation.Some? && r.messageBytes.Some?)
            && (r.benchmark == Some("tls-handshake") && r.handshakesPerSecond.Some? ==> r.cipher.Some?)
            && (r.benchmark == Some("tls-transfer") && r.mibPerSecond.Some? ==> r.cipher.Some? && r.messageBytes.Some?)
  {
    if Complete(r) {
      assert InSection(Primitive, r) ==> Aggregable(Primitive, r);
      assert InSection(Handshake, r) ==> Aggregable(Handshake, r);
      assert InSection(Transfer, r) ==> Aggregable(Transfer, r);
    }
  }

  lemma PrintedRowIsComplete(r: Row)
    requires PrintedRow(r)
    ensures Complete(r)
  {
    CompleteExactlyWhen(r);
  }

  /** Nothing is missing from the rows the runners print, so the program never chokes on them. */
  lemma PrintedRowsAreComplete(rows: seq<Row>)
    requires forall r :: r in rows ==> PrintedRow(r)
    ensures forall r :: r in rows ==> Complete(r)
  {
    hide PrintedRow, Complete;
    forall r | r in rows
      ensures Complete(r)
    {
      PrintedRowIsComplete(r);
    }
  }

  type Data = map<Key, map<string, real>>

  /** data[key][backend], if there is one. */
  function Lookup(data: Data, g: Group): Option<real> {
    if g.0 in data && g.1 in data[g.0] then Some(data[g.0][g.1]) else None
  }

  /** The dictionary of medians, and its keys in the order they were inserted. */
  ghost predicate IsData(data: Data, order: seq<Key>, sec: Section, rows: seq<Row>) {
    && (forall g: Group :: Lookup(data, g) == Cell(sec, rows, g))
    && NoRepeats(order) && (forall k :: k in order <==> k in Collect(KeyIn(sec), rows))
  }

  function Put(data: Data, g: Group, v: real): Data {
    data[g.0 := (if g.0 in data then data[g.0] else map[])[g.1 := v]]
  }

  lemma LookupAfterPut(data: Data, g: Group, v: real, h: Group)
    ensures Lookup(Put(data, g, v), h) == if h == g then Some(v) else Lookup(data, h)
  {
  }

  /** What the first loop of `aggregate` has collected: the samples of every group seen. */
  ghost predicate IsGrouped(values: map<Group, seq<real>>, order: seq<Group>, sec: Section, rows: seq<Row>) {
    && order == Groups(sec, rows)
    && (forall g :: g in values <==> g in order)
    && (forall g :: g in values ==> values[g] != [])
    && (forall g :: Samples(sec, rows, g) == SamplesIn(values, g))
  }

  function SamplesIn(values: map<Group, seq<real>>, g: Group): seq<real> {
    if g in values then values[g] else []
  }

  /** Every row adds its number to the samples of its key and backend. */
  method GroupSamples(sec: Section, rows: seq<Row>) returns (ok: bool, values: map<Group, seq<real>>, order: seq<Group>)
    ensures ok <==> forall r :: r in rows ==> Aggregable(sec, r)
    ensures ok ==> IsGrouped(values, order, sec, rows)
  {
    hide IsGrouped;
    values, order := map[], [];
    NothingGrouped(sec);
    var n := 0;
    while n < |rows|
      invariant n <= |rows|
      invariant forall r :: r in rows[..n] ==> Aggregable(sec, r)
      invariant IsGrouped(values, order, sec, rows[..n])
    {
      var r := rows[n];
      assert rows[..n + 1] == rows[..n] + [r];
      if Metric(sec, r).Some? {
        if KeyOf(sec, r).None? || r.backend.None? {
          assert r in rows && !Aggregable(sec, r);
          return false, map[], [];
        }
        var g: Group := (KeyOf(sec, r).value, r.backend.value);
        SampleGrouped(values, order, sec, rows[..n], r, g);
        ghost var grown := values[g := SamplesIn(values, g) + [Metric(sec, r).value]];
        if g !in values {
          values := values[g := []];
          order := order + [g];
        }
        values := values[g := values[g] + [Metric(sec, r).value]];
        assert values == grown;
      } else {
        OtherGrouped(values, order, sec, rows[..n], r);
      }
      n := n + 1;
    }
    assert rows[..n] == rows;
    return true, values, order;
  }

  lemma NothingGrouped(sec: Section)
    ensures IsGrouped(map[], [], sec, [])
  {
  }

  lemma SamplesAppend(sec: Section, rows: seq<Row>, r: Row, g: Group)
    ensures Samples(sec, rows + [r], g) ==
            Samples(sec, rows, g) + if GroupOf(sec)(r) == Some(g) then [Metric(sec, r).value] else []
  {
    assert (rows + [r])[..|rows|] == rows;
  }

  lemma SampleGrouped(values: map<Group, seq<real>>, order: seq<Group>, sec: Section, rows: seq<Row>, r: Row, g: Group)
    requires IsGrouped(values, order, sec, rows) && GroupOf(sec)(r) == Some(g)
    ensures IsGrouped(values[g := SamplesIn(values, g) + [Metric(sec, r).value]],
                      if g in values then order else order + [g], sec, rows + [r])
  {
    hide Collect, Distinct, Groups, Samples;
    GroupsAppend(sec, rows, r);
    forall h: Group
      ensures Samples(sec, rows + [r], h) == Samples(sec, rows, h) + if h == g then [Metric(sec, r).value] else []
    {
      SamplesAppend(sec, rows, r, h);
    }
  }

  lemma OtherGrouped(values: map<Group, seq<real>>, order: seq<Group>, sec: Section, rows: seq<Row>, r: Row)
    requires IsGrouped(values, order, sec, rows) && GroupOf(sec)(r) == None
    ensures IsGrouped(values, order, sec, rows + [r])
  {
    hide Collect, Distinct, Groups, Samples;
    GroupsAppend(sec, rows, r);
    forall h: Group
      ensures Samples(sec, rows + [r], h) == Samples(sec, rows, h)
    {
      SamplesAppend(sec, rows, r, h);
    }
  }

  lemma GroupsAppend(sec: Section, rows: seq<Row>, r: Row)
    ensures var g := GroupOf(sec)(r);
            Groups(sec, rows + [r]) ==
            if g.Some? && g.value !in Groups(sec, rows) then Groups(sec, rows) + [g.value] else Groups(sec, rows)
  {
    var before := Collect(GroupOf(sec), rows);
    assert (rows + [r])[..|rows|] == rows;
    var all := Collect(GroupOf(sec), rows + [r]);
    if GroupOf(sec)(r).Some? {
      assert all == before + [GroupOf(sec)(r).value] && all[..|all| - 1] == before;
    } else {
      assert all == before;
    }
  }

  /** `aggregate` */
  method Aggregate(sec: Section, rows: seq<Row>) returns (result: Option<(Data, seq<Key>)>)
    ensures result.Some? <==> forall r :: r in rows ==> Aggregable(sec, r)
    ensures result.Some? ==> IsData(result.value.0, result.value.1, sec, rows)
  {
    var ok, values, groups := GroupSamples(sec, rows);
    if !ok {
      return None;
    }
    var data: Data, order: seq<Key> := map[], [];
    var n := 0;
    while n < |groups|
      invariant n <= |groups|
      invariant forall g: Group :: Lookup(data, g) == if g in groups[..n] then Some(Median(Samples(sec, rows, g))) else None
      invariant NoRepeats(order)
      invariant forall k :: k in order <==> k in data
      invariant forall k :: k in data <==> exists b: string :: (k, b) in groups[..n]
    {
      hide Median, Collect;
      var g := groups[n];
      assert groups[..n + 1] == groups[..n] + [g];
      if g.0 !in data {
        order := order + [g.0];
      }
      ghost var before := data;
      data := Put(data, g, Median(values[g]));
      forall h: Group
        ensures Lookup(data, h) == if h in groups[..n + 1] then Some(Median(Samples(sec, rows, h))) else None
      {
        LookupAfterPut(before, g, Median(values[g]), h);
      }
      forall k
        ensures k in data <==> exists b: string :: (k, b) in groups[..n + 1]
      {
        KeysAfterPut(before, data, groups[..n], g, k);
      }
      n := n + 1;
    }
    assert groups[..n] == groups;
    AggregateIsData(sec, rows, values, data, order);
    return Some((data, order));
  }

  lemma KeysAfterPut(before: Data, data: Data, front: seq<Group>, g: Group, k: Key)
    requires k in before <==> exists b: string :: (k, b) in front
    requires k in data <==> k in before || k == g.0
    ensures k in data <==> exists b: string :: (k, b) in front + [g]
  {
    var all := front + [g];
    if b: string :| (k, b) in front {
      assert (k, b) in all;
    }
    if k == g.0 {
      assert g == (k, g.1) && all[|front|] == g;
      assert (k, g.1) in all;
    }
    if b: string :| (k, b) in all {
      assert (k, b) in front || (k, b) == g;
    }
  }

  lemma AggregateIsData(sec: Section, rows: seq<Row>, values: map<Group, seq<real>>, data: Data, order: seq<Key>)
    requires forall g :: g in values <==> g in Groups(sec, rows)
    requires forall g :: g in values ==> Samples(sec, rows, g) != []
    requires forall g: Group :: Lookup(data, g) == if g in Groups(sec, rows) then Some(Median(Samples(sec, rows, g))) else None
    requires NoRepeats(order) && (forall k :: k in order <==> k in data)
    requires forall k :: k in data <==> exists b: string :: (k, b) in Groups(sec, rows)
    ensures IsData(data, order, sec, rows)
  {
    hide Median;
    forall g: Group
      ensures Lookup(data, g) == Cell(sec, rows, g)
    {
      SamplesOnlyOfGroups(sec, rows, g);
    }
    forall k
      ensures k in order <==> k in Collect(KeyIn(sec), rows)
    {
      KeysOfGroups(sec, rows, k);
    }
  }

  lemma SamplesOnlyOfGroups(sec: Section, rows: seq<Row>, g: Group)
    ensures Samples(sec, rows, g) != [] ==> g in Groups(sec, rows)
  {
    DistinctElements(Collect(GroupOf(sec), rows));
    CollectMember(GroupOf(sec), rows, g);
    if Samples(sec, rows, g) != [] {
      CollectMember(SampleOf(sec, g), rows, Samples(sec, rows, g)[0]);
    }
  }

  lemma KeysOfGroups(sec: Section, rows: seq<Row>, k: Key)
    ensures k in Collect(KeyIn(sec), rows) <==> exists b: string :: (k, b) in Groups(sec, rows)
  {
    DistinctElements(Collect(GroupOf(sec), rows));
    CollectMember(KeyIn(sec), rows, k);
    if b: string :| (k, b) in Groups(sec, rows) {
      CollectMember(GroupOf(sec), rows, (k, b));
      var i :| 0 <= i < |rows| && GroupOf(sec)(rows[i]) == Some((k, b));
      assert KeyIn(sec)(rows[i]) == Some(k);
    }
    if i :| 0 <= i < |rows| && KeyIn(sec)(rows[i]) == Some(k) {
      var g := GroupOf(sec)(rows[i]).value;
      CollectMember(GroupOf(sec), rows, g);
      assert g == (k, g.1);
    }
  }

  /** The keys of the dictionary in the order of the table rows. */
  lemma SortedKeys(data: Data, order: seq<Key>, sec: Section, rows: seq<Row>)
    requires IsData(data, order, sec, rows)
    ensures Sort(KeyLe, order) == Keys(sec, rows)
  {
    KeyOrder();
    SortDistinctDependsOnSet(KeyLe, order, Collect(KeyIn(sec), rows));
    DistinctOfDistinct(order);
  }

  lemma {:induction false} DistinctOfDistinct<T>(s: seq<T>)
    requires NoRepeats(s)
    ensures Distinct(s) == s
  {
    if s != [] {
      DistinctOfDistinct(s[..|s| - 1]);
      assert s == s[..|s| - 1] + [s[|s| - 1]];
    }
  }

  /** The rows of one table. */
  method BuildRows(sec: Section, rows: seq<Row>, backends: seq<string>, fmt: Format, data: Data, order: seq<Key>)
    returns (tableRows: seq<seq<string>>)
    requires IsData(data, order, sec, rows)
    ensures tableRows == SectionTable(sec, rows, backends, fmt).rows
  {
    hide Keys, Sort, Cell, KeyCells, RateCells, RatioCells, TableRow;
    SortedKeys(data, order, sec, rows);
    var keys := Sort(KeyLe, order);
    tableRows := [];
    var n := 0;
    while n < |keys|
      invariant n <= |keys| && keys == Keys(sec, rows)
      invariant tableRows == TableRows(sec, rows, backends, fmt, keys)[..n]
    {
      var key := keys[n];
      var values := (b: string) => Lookup(data, (key, b));
      var row := KeyCells(fmt, key);
      row := row + RateCells(fmt, values, backends);
      row := row + RatioCells(fmt, values, backends);
      assert row == TableRow(sec, rows, backends, fmt, key) by {
        SameCells(sec, rows, backends, fmt, key, values);
      }
      tableRows := tableRows + [row];
      n := n + 1;
    }
  }

  lemma SameCells(sec: Section, rows: seq<Row>, backends: seq<string>, fmt: Format, key: Key, values: string -> Option<real>)
    requires forall b: string :: values(b) == Cell(sec, rows, (key, b))
    ensures KeyCells(fmt, key) + RateCells(fmt, values, backends) + RatioCells(fmt, values, backends)
         == TableRow(sec, rows, backends, fmt, key)
  {
    hide Cell;
    assert RateCells(fmt, values, backends) == RateCells(fmt, Values(sec, rows, key), backends);
  }

  /** One of the three blocks of `render_architecture`. */
  method AppendSection(report: Report, sec: Section, rows: seq<Row>, backends: seq<string>, fmt: Format) returns (ok: bool)
    modifies report
    ensures ok <==> forall r :: r in rows && InSection(sec, r) ==> Aggregable(sec, r)
    ensures ok ==> report.lines == old(report.lines) + SectionLines(sec, rows, backends, fmt)
  {
    hide Aggregable, IsData, TableLines, Headings, InSection, Keys, TableRows;
    var mine := SectionRows(sec, rows);
    MembersOfSection(sec, rows);
    if mine == [] {
      assert report.lines + [] == report.lines;
      return true;
    }
    report.Append(Title(sec));
    report.Append("");
    var aggregated := Aggregate(sec, mine);
    if aggregated.None? {
      return false;
    }
    var tableRows := BuildRows(sec, mine, backends, fmt, aggregated.value.0, aggregated.value.1);
    report.AppendTable(Headings(sec, backends), tableRows);
    return true;
  }

  lemma MembersOfSection(sec: Section, rows: seq<Row>)
    ensures forall r :: r in SectionRows(sec, rows) <==> r in rows && InSection(sec, r)
  {
    forall r
      ensures r in SectionRows(sec, rows) <==> r in rows && InSection(sec, r)
    {
      SectionMember(sec, rows, r);
    }
  }

  /** For every backend the version in the last of its rows. */
  method CollectVersions(rows: seq<Row>) returns (ok: bool, versions: map<string, string>)
    ensures ok <==> forall r :: r in rows ==> r.backend.Some?
    ensures ok ==> forall b :: b in Backends(rows) ==> b in versions && versions[b] == VersionOf(rows, b)
  {
    versions := map[];
    var n := 0;
    while n < |rows|
      invariant n <= |rows|
      invariant forall r :: r in rows[..n] ==> r.backend.Some?
      invariant forall r :: r in rows[..n] ==> r.backend.value in versions
      invariant forall b :: b in versions ==> versions[b] == VersionOf(rows[..n], b)
    {
      var r := rows[n];
      assert rows[..n + 1] == rows[..n] + [r] && rows[..n + 1][..n] == rows[..n];
      if r.backend.None? {
        assert r in rows;
        return false, versions;
      }
      versions := versions[r.backend.value := VersionText(r)];
      n := n + 1;
    }
    assert rows[..n] == rows;
    forall b | b in Backends(rows)
      ensures b in versions
    {
      BackendMember(rows, b);
    }
    return true, versions;
  }

  predicate AllAggregable(sec: Section, rows: seq<Row>) {
    forall r :: r in rows && InSection(sec, r) ==> Aggregable(sec, r)
  }

  lemma CompleteMeans(rows: seq<Row>)
    ensures (forall r :: r in rows ==> Complete(r)) <==>
            && (forall r :: r in rows ==> r.backend.Some?)
            && AllAggregable(Primitive, rows) && AllAggregable(Handshake, rows) && AllAggregable(Transfer, rows)
  {
    hide InSection, Aggregable;
    forall r, sec: Section | r in rows && InSection(sec, r) && AllAggregable(Primitive, rows)
                             && AllAggregable(Handshake, rows) && AllAggregable(Transfer, rows)
      ensures Aggregable(sec, r)
    {
      match sec case Primitive => case Handshake => case Transfer =>
    }
  }

  /** `render_architecture` */
  method RenderArchitecture(rows: seq<Row>, architecture: string, fmt: Format) returns (lines: Option<seq<string>>)
    ensures lines.Some? <==> forall r :: r in rows ==> Complete(r)
    ensures lines.Some? ==> lines.value == ArchitectureLines(rows, architecture, fmt)
  {
    CompleteMeans(rows);
    hide Complete, Aggregable, InSection, SectionLines, TableLines, VersionOf, Backends;
    var ok, versions := CollectVersions(rows);
    if !ok {
      return None;
    }
    var backends := Backends(rows);
    var report := new Report();
    report.Append("## Architecture: `" + architecture + "`");
    report.Append("");
    var versionRows := seq(|backends|, i requires 0 <= i < |backends| && backends[i] in versions =>
      [DisplayBackend(backends[i]), versions[backends[i]]]);
    assert versionRows == VersionTable(rows, backends).rows;
    report.AppendTable(["Backend", "Version"], versionRows);
    ghost var start := report.lines;
    ok := AppendSection(report, Primitive, rows, backends, fmt);
    if ok {
      ok := AppendSection(report, Handshake, rows, backends, fmt);
    }
    if ok {
      ok := AppendSection(report, Transfer, rows, backends, fmt);
    }
    if !ok {
      return None;
    }
    assert report.lines == start + Sections(rows, backends, fmt);
    return Some(report.lines);
  }

  /** The rows of each architecture, in the order in which they were read. */
  ghost predicate IsDivided(byArchitecture: map<string, seq<Row>>, order: seq<string>, rows: seq<Row>) {
    && order == Distinct(Collect(ArchitectureIn(), rows))
    && (forall a :: a in byArchitecture <==> a in order)
    && (forall a :: RowsOf(rows, a) == RowsIn(byArchitecture, a))
  }

  method DivideRows(rows: seq<Row>) returns (byArchitecture: map<string, seq<Row>>, order: seq<string>)
    ensures IsDivided(byArchitecture, order, rows)
  {
    hide IsDivided;
    byArchitecture, order := map[], [];
    NothingDivided();
    var n := 0;
    while n < |rows|
      invariant n <= |rows| && IsDivided(byArchitecture, order, rows[..n])
    {
      var r, a := rows[n], ArchitectureOf(rows[n]);
      assert rows[..n + 1] == rows[..n] + [r];
      RowDivided(byArchitecture, order, rows[..n], r);
      ghost var grown := byArchitecture[a := RowsIn(byArchitecture, a) + [r]];
      if a !in byArchitecture {
        byArchitecture := byArchitecture[a := []];
        order := order + [a];
      }
      byArchitecture := byArchitecture[a := byArchitecture[a] + [r]];
      assert byArchitecture == grown;
      n := n + 1;
    }
    assert rows[..n] == rows;
  }

  function RowsIn(byArchitecture: map<string, seq<Row>>, a: string): seq<Row> {
    if a in byArchitecture then byArchitecture[a] else []
  }

  lemma NothingDivided()
    ensures IsDivided(map[], [], [])
  {
  }

  lemma RowDivided(byArchitecture: map<string, seq<Row>>, order: seq<string>, rows: seq<Row>, r: Row)
    requires IsDivided(byArchitecture, order, rows)
    ensures var a := ArchitectureOf(r);
            IsDivided(byArchitecture[a := RowsIn(byArchitecture, a) + [r]],
                      if a in byArchitecture then order else order + [a], rows + [r])
  {
    hide Collect, Distinct, RowsOf;
    ArchitecturesAppend(rows, r);
    forall c: string
      ensures RowsOf(rows + [r], c) == RowsOf(rows, c) + if c == ArchitectureOf(r) then [r] else []
    {
      RowsOfAppend(rows, r, c);
    }
  }

  lemma RowsOfAppend(rows: seq<Row>, r: Row, a: string)
    ensures RowsOf(rows + [r], a) == RowsOf(rows, a) + if a == ArchitectureOf(r) then [r] else []
  {
    assert (rows + [r])[..|rows|] == rows;
  }

  /** `render`: rows are put under their architectures, and the parts follow one another. */
  method Render(rows: seq<Row>, title: string, fmt: Format) returns (text: Option<string>)
    ensures text.Some? <==> forall r :: r in rows ==> Complete(r)
    ensures text.Some? ==> text.value == ReportText(rows, title, fmt)
  {
    hide Complete, ArchitectureLines, Collect, Distinct, Sort, Join, RStrip, Intro, RowsOf;
    var lines := Intro(title);
    var byArchitecture, order := DivideRows(rows);
    var names := Sort(ArchitectureLe, order);
    ghost var parts := Parts(rows, names, fmt);
    var i := 0;
    while i < |names|
      invariant i <= |names|
      invariant lines == Intro(title) + Concat(parts[..i])
      invariant forall k :: 0 <= k < i ==> PartComplete(rows, names[k])
    {
      SortKeepsMembers(ArchitectureLe, order, names[i]);
      var part := RenderArchitecture(byArchitecture[names[i]], names[i], fmt);
      if part.None? {
        IncompleteRow(rows, names[i]);
        return None;
      }
      lines := lines + part.value;
      ConcatOneMore(parts, i);
      i := i + 1;
    }
    assert parts[..i] == parts;
    AllComplete(rows);
    return Some(RStrip(Join("\n", lines)) + "\n");
  }

  ghost predicate PartComplete(rows: seq<Row>, a: string) {
    forall r :: r in RowsOf(rows, a) ==> Complete(r)
  }

  lemma ConcatOneMore(parts: seq<seq<string>>, i: nat)
    requires i < |parts|
    ensures Concat(parts[..i + 1]) == Concat(parts[..i]) + parts[i]
  {
    assert parts[..i + 1] == parts[..i] + [parts[i]];
    ConcatAppend(parts[..i], [parts[i]]);
    assert Concat([parts[i]]) == parts[i] + Concat([]) == parts[i];
  }

  lemma ArchitecturesAppend(rows: seq<Row>, r: Row)
    ensures var names := Distinct(Collect(ArchitectureIn(), rows));
            Distinct(Collect(ArchitectureIn(), rows + [r])) ==
            if ArchitectureOf(r) in names then names else names + [ArchitectureOf(r)]
  {
    var before := Collect(ArchitectureIn(), rows);
    assert (rows + [r])[..|rows|] == rows;
    assert Collect(ArchitectureIn(), rows + [r]) == before + [ArchitectureOf(r)];
    assert (before + [ArchitectureOf(r)])[..|before|] == before;
  }

  lemma IncompleteRow(rows: seq<Row>, a: string)
    requires !PartComplete(rows, a)
    ensures exists r :: r in rows && !Complete(r)
  {
    var r :| r in RowsOf(rows, a) && !Complete(r);
    ArchitectureMember(rows, a, r);
  }

  lemma AllComplete(rows: seq<Row>)
    requires var names := Architectures(rows);
             forall k :: 0 <= k < |names| ==> PartComplete(rows, names[k])
    ensures forall r :: r in rows ==> Complete(r)
  {
    var names, all := Architectures(rows), Collect(ArchitectureIn(), rows);
    forall r | r in rows
      ensures Complete(r)
    {
      var a := ArchitectureOf(r);
      var i :| 0 <= i < |rows| && rows[i] == r;
      assert ArchitectureIn()(rows[i]) == Some(a);
      CollectMember(ArchitectureIn(), rows, a);
      DistinctElements(all);
      SortKeepsMembers(ArchitectureLe, Distinct(all), a);
      var k :| 0 <= k < |names| && names[k] == a;
      ArchitectureMember(rows, a, r);
    }
  }
}
