/** The benchmark report of scripts/summarize_results.py: rows are grouped by architecture,
    key and backend, samples become medians, and everything is printed in a canonical order. */
module Summary {
  import opened Prelude
  import opened Sorting
  import opened MarkdownTable

  /** A JSON object of the results; a field may be absent. */
  datatype Row = Row(architecture: Option<string>, backend: Option<string>, version: Option<string>,
                     algorithm: Option<string>, operation: Option<string>, messageBytes: Option<int>,
                     benchmark: Option<string>, cipher: Option<string>,
                     mibPerSecond: Option<real>, handshakesPerSecond: Option<real>)

  function ArchitectureOf(r: Row): string { if r.architecture.Some? then r.architecture.value else "unknown" }

  function VersionText(r: Row): string { if r.version.Some? then r.version.value else "unknown" }

  /** One element of a key tuple. */
  datatype Field = Text(text: string) | Num(num: int)

  type Key = seq<Field>

  /** The three tables of measurements. */
  datatype Section = Primitive | Handshake | Transfer

  predicate InSection(sec: Section, r: Row) {
    match sec
    case Primitive => r.algorithm.Some?
    case Handshake => r.benchmark == Some("tls-handshake")
    case Transfer => r.benchmark == Some("tls-transfer")
  }

  /** The fields that name a row's line in its table, or None if one is absent. */
  function KeyOf(sec: Section, r: Row): Option<Key> {
    match sec
    case Primitive =>
      if r.algorithm.Some? && r.operation.Some? && r.messageBytes.Some?
      then Some([Text(r.algorithm.value), Text(r.operation.value), Num(r.messageBytes.value)]) else None
    case Handshake =>
      if r.cipher.Some? then Some([Text(r.cipher.value)]) else None
    case Transfer =>
      if r.cipher.Some? && r.messageBytes.Some? then Some([Text(r.cipher.value), Num(r.messageBytes.value)]) else None
  }

  function Metric(sec: Section, r: Row): Option<real> {
    if sec.Handshake? then r.handshakesPerSecond else r.mibPerSecond
  }

  // ----- grouping

  type Group = (Key, string)

  /** The group a row contributes a sample to. */
  function GroupOf(sec: Section): Row -> Option<Group> {
    (r: Row) =>
      if Metric(sec, r).Some? && KeyOf(sec, r).Some? && r.backend.Some?
      then Some((KeyOf(sec, r).value, r.backend.value)) else None
  }

  function KeyIn(sec: Section): Row -> Option<Key> {
    (r: Row) => match GroupOf(sec)(r) case None => None case Some(g) => Some(g.0)
  }

  function SampleOf(sec: Section, g: Group): Row -> Option<real> {
    (r: Row) => if GroupOf(sec)(r) == Some(g) then Metric(sec, r) else None
  }

  function Samples(sec: Section, rows: seq<Row>, g: Group): seq<real> { Collect(SampleOf(sec, g), rows) }

  function Groups(sec: Section, rows: seq<Row>): seq<Group> { Distinct(Collect(GroupOf(sec), rows)) }

  /** The median of a group, if it has samples. */
  function Cell(sec: Section, rows: seq<Row>, g: Group): Option<real> {
    if Samples(sec, rows, g) == [] then None else Some(Median(Samples(sec, rows, g)))
  }

  // ----- orders

  predicate FieldLe(a: Field, b: Field) {
    match (a, b)
    case (Text(x), Text(y)) => StringLe(x, y)
    case (Num(m), Num(n)) => m <= n
    case (Text(_), Num(_)) => true
    case (Num(_), Text(_)) => false
  }

  predicate KeyLe(a: Key, b: Key) { LexLe(FieldLe, a, b) }

  lemma KeyOrder()
    ensures TotalOrder(KeyLe)
  {
    assert TotalOrder(FieldLe) by { StringOrder(); }
    forall a, b
      ensures (KeyLe(a, b) || KeyLe(b, a)) && (KeyLe(a, b) && KeyLe(b, a) ==> a == b)
    {
      LexTotal(FieldLe, a, b);
    }
    forall a, b, c | KeyLe(a, b) && KeyLe(b, c)
      ensures KeyLe(a, c)
    {
      LexTransitive(FieldLe, a, b, c);
    }
  }

  function BackendRank(name: string): nat {
    if name == "openssl" then 0 else if name == "libressl" then 1 else if name == "libressl-patched" then 2 else 99
  }

  function ArchitectureRank(name: string): nat {
    if name == "x86_64" then 0 else if name == "arm64" then 1 else 99
  }

  predicate BackendLe(a: string, b: string) { RankedLe(BackendRank, a, b) }

  predicate ArchitectureLe(a: string, b: string) { RankedLe(ArchitectureRank, a, b) }

  lemma NameOrders()
    ensures TotalOrder(BackendLe) && TotalOrder(ArchitectureLe)
  {
    StringOrder();
  }

  /** Keys in the order of the table rows. */
  function Keys(sec: Section, rows: seq<Row>): seq<Key> {
    Sort(KeyLe, Distinct(Collect(KeyIn(sec), rows)))
  }

  function BackendIn(): Row -> Option<string> { (r: Row) => r.backend }

  /** `backend_order` of the backends that occur. */
  function Backends(rows: seq<Row>): seq<string> {
    Sort(BackendLe, Distinct(Collect(BackendIn(), rows)))
  }

  function ArchitectureIn(): Row -> Option<string> { (r: Row) => Some(ArchitectureOf(r)) }

  function Architectures(rows: seq<Row>): seq<string> {
    Sort(ArchitectureLe, Distinct(Collect(ArchitectureIn(), rows)))
  }

  function OfArchitecture(a: string): Row -> Option<Row> {
    (r: Row) => if ArchitectureOf(r) == a then Some(r) else None
  }

  function OfSection(sec: Section): Row -> Option<Row> {
    (r: Row) => if InSection(sec, r) then Some(r) else None
  }

  function RowsOf(rows: seq<Row>, a: string): seq<Row> { Collect(OfArchitecture(a), rows) }

  function SectionRows(sec: Section, rows: seq<Row>): seq<Row> { Collect(OfSection(sec), rows) }

  // ----- what is printed

  /** Number formatting, left open. */
  datatype Format = Format(rate: real -> string, ratio: real -> string, patchedRatio: real -> string, number: int -> string)

  const MISSING: string := "—"

  function DisplayBackend(name: string): string {
    if name == "openssl" then "OpenSSL"
    else if name == "libressl" then "LibreSSL baseline"
    else if name == "libressl-patched" then "LibreSSL patched"
    else name
  }

  predicate HasRatio(backends: seq<string>) { "openssl" in backends && "libressl" in backends }

  predicate HasPatchedRatio(backends: seq<string>) { "libressl-patched" in backends && "libressl" in backends }

  function RatioHeadings(backends: seq<string>): seq<string> {
    (if HasRatio(backends) then ["OpenSSL / baseline"] else []) +
    (if HasPatchedRatio(backends) then ["Patched / baseline"] else [])
  }

  /** A quotient of two medians, printed if both exist and the baseline is not zero. */
  function RatioCell(format: real -> string, value: Option<real>, baseline: Option<real>): string {
    if value.None? || baseline.None? || baseline.value == 0.0 then MISSING
    else format(value.value / baseline.value) + "×"
  }

  function RatioCells(fmt: Format, values: string -> Option<real>, backends: seq<string>): seq<string> {
    (if HasRatio(backends) then [RatioCell(fmt.ratio, values("openssl"), values("libressl"))] else []) +
    (if HasPatchedRatio(backends) then [RatioCell(fmt.patchedRatio, values("libressl-patched"), values("libressl"))] else [])
  }

  function RateCell(fmt: Format, value: Option<real>): string {
    if value.None? then MISSING else fmt.rate(value.value)
  }

  function RateCells(fmt: Format, values: string -> Option<real>, backends: seq<string>): (r: seq<string>)
    ensures |r| == |backends|
  {
    seq(|backends|, i requires 0 <= i < |backends| => RateCell(fmt, values(backends[i])))
  }

  function KeyCells(fmt: Format, key: Key): (r: seq<string>)
    ensures |r| == |key|
  {
    seq(|key|, i requires 0 <= i < |key| => match key[i] case Text(s) => s case Num(n) => fmt.number(n))
  }

  function KeyHeadings(sec: Section): seq<string> {
    match sec
    case Primitive => ["Algorithm", "Operation", "Bytes"]
    case Handshake => ["Cipher"]
    case Transfer => ["Cipher", "Bytes"]
  }

  function Title(sec: Section): string {
    match sec
    case Primitive => "### AEAD primitive throughput"
    case Handshake => "### TLS 1.3 full handshake"
    case Transfer => "### TLS 1.3 application-data throughput"
  }

  function Unit(sec: Section): string { if sec.Handshake? then " handshakes/s" else " MiB/s" }

  function BackendHeadings(sec: Section, backends: seq<string>): (r: seq<string>)
    ensures |r| == |backends|
  {
    seq(|backends|, i requires 0 <= i < |backends| => DisplayBackend(backends[i]) + Unit(sec))
  }

  function Headings(sec: Section, backends: seq<string>): seq<string> {
    KeyHeadings(sec) + BackendHeadings(sec, backends) + RatioHeadings(backends)
  }

  /** The medians of one key: data[key]. */
  function Values(sec: Section, rows: seq<Row>, key: Key): string -> Option<real> {
    (backend: string) => Cell(sec, rows, (key, backend))
  }

  function TableRow(sec: Section, rows: seq<Row>, backends: seq<string>, fmt: Format, key: Key): seq<string> {
    var values := Values(sec, rows, key);
    KeyCells(fmt, key) + RateCells(fmt, values, backends) + RatioCells(fmt, values, backends)
  }

  function TableRows(sec: Section, rows: seq<Row>, backends: seq<string>, fmt: Format, keys: seq<Key>): (r: seq<seq<string>>)
    ensures |r| == |keys|
  {
    seq(|keys|, i requires 0 <= i < |keys| => TableRow(sec, rows, backends, fmt, keys[i]))
  }

  function SectionTable(sec: Section, rows: seq<Row>, backends: seq<string>, fmt: Format): Table {
    Table(Headings(sec, backends), TableRows(sec, rows, backends, fmt, Keys(sec, rows)))
  }

  function SectionLines(sec: Section, rows: seq<Row>, backends: seq<string>, fmt: Format): seq<string> {
    var mine := SectionRows(sec, rows);
    if mine == [] then [] else [Title(sec), ""] + TableLines(SectionTable(sec, mine, backends, fmt))
  }

  /** versions[backend]: the last row of a backend decides. */
  function VersionOf(rows: seq<Row>, backend: string): string {
    if rows == [] then "unknown"
    else if rows[|rows| - 1].backend == Some(backend) then VersionText(rows[|rows| - 1])
    else VersionOf(rows[..|rows| - 1], backend)
  }

  function VersionTable(rows: seq<Row>, backends: seq<string>): Table {
    Table(["Backend", "Version"],
          seq(|backends|, i requires 0 <= i < |backends| => [DisplayBackend(backends[i]), VersionOf(rows, backends[i])]))
  }

  function Sections(rows: seq<Row>, backends: seq<string>, fmt: Format): seq<string> {
    SectionLines(Primitive, rows, backends, fmt) + SectionLines(Handshake, rows, backends, fmt) +
    SectionLines(Transfer, rows, backends, fmt)
  }

  function ArchitectureLines(rows: seq<Row>, architecture: string, fmt: Format): seq<string> {
    var backends := Backends(rows);
    ["## Architecture: `" + architecture + "`", ""] + TableLines(VersionTable(rows, backends)) + Sections(rows, backends, fmt)
  }

  function MedianNote(): string {
    "> Values are medians of the raw samples. " +
    "Higher is better."
  }

  function MachineNote(): string {
    "> Compare backends within one architecture; " +
    "runner hardware differs " +
    "across architectures."
  }

  function RunnerNote(): string {
    "> GitHub-hosted runner performance can " +
    "vary between workflow runs."
  }

  function Intro(title: string): seq<string> {
    ["# " + title, "", MedianNote(), MachineNote(), RunnerNote(), ""]
  }

  function Parts(rows: seq<Row>, architectures: seq<string>, fmt: Format): (r: seq<seq<string>>)
    ensures |r| == |architectures|
  {
    seq(|architectures|, i requires 0 <= i < |architectures| =>
      ArchitectureLines(RowsOf(rows, architectures[i]), architectures[i], fmt))
  }

  function ReportLines(rows: seq<Row>, title: string, fmt: Format): seq<string> {
    Intro(title) + Concat(Parts(rows, Architectures(rows), fmt))
  }

  /** Python's white space. */
  predicate IsSpace(c: char) {
    c in " \t\n\r\U{000B}\U{000C}\U{001C}\U{001D}\U{001E}\U{001F}\U{0085}\U{00A0}\U{1680}\U{2028}\U{2029}\U{202F}\U{205F}\U{3000}"
    || '\U{2000}' <= c <= '\U{200A}'
  }

  function RStrip(s: string): string {
    if s != "" && IsSpace(s[|s| - 1]) then RStrip(s[..|s| - 1]) else s
  }

  function ReportText(rows: seq<Row>, title: string, fmt: Format): string {
    RStrip(Join("\n", ReportLines(rows, title, fmt))) + "\n"
  }

  // ----- order of the rows: what depends on the multiset of rows only

  lemma SortedDistinctPermutes<T(!new)>(le: (T, T) -> bool, f: Row -> Option<T>, rows: seq<Row>, rows': seq<Row>)
    requires TotalOrder(le) && multiset(rows) == multiset(rows')
    ensures Sort(le, Distinct(Collect(f, rows))) == Sort(le, Distinct(Collect(f, rows')))
  {
    CollectPermutes(f, rows, rows');
    SameMembers(Collect(f, rows), Collect(f, rows'));
    SortDistinctDependsOnSet(le, Collect(f, rows), Collect(f, rows'));
  }

  lemma CellPermutes(sec: Section, rows: seq<Row>, rows': seq<Row>, g: Group)
    requires multiset(rows) == multiset(rows')
    ensures Cell(sec, rows, g) == Cell(sec, rows', g)
  {
    CollectPermutes(SampleOf(sec, g), rows, rows');
    var s, s' := Samples(sec, rows, g), Samples(sec, rows', g);
    assert |s| == |multiset(s)| == |multiset(s')| == |s'|;
    if s != [] {
      MedianDependsOnMultiset(s, s');
    }
  }

  lemma TableRowPermutes(sec: Section, rows: seq<Row>, rows': seq<Row>, backends: seq<string>, fmt: Format, key: Key)
    requires multiset(rows) == multiset(rows')
    ensures TableRow(sec, rows, backends, fmt, key) == TableRow(sec, rows', backends, fmt, key)
  {
    var values, values' := Values(sec, rows, key), Values(sec, rows', key);
    forall b: string
      ensures values(b) == values'(b)
    {
      CellPermutes(sec, rows, rows', (key, b));
    }
    assert RateCells(fmt, values, backends) == RateCells(fmt, values', backends);
    assert RatioCells(fmt, values, backends) == RatioCells(fmt, values', backends);
  }

  /** Every table of measurements is the same for every order of the rows, whatever the
      versions say. */
  lemma SectionPermutes(sec: Section, rows: seq<Row>, rows': seq<Row>, backends: seq<string>, fmt: Format)
    requires multiset(rows) == multiset(rows')
    ensures SectionLines(sec, rows, backends, fmt) == SectionLines(sec, rows', backends, fmt)
  {
    CollectPermutes(OfSection(sec), rows, rows');
    var mine, mine' := SectionRows(sec, rows), SectionRows(sec, rows');
    assert |mine| == |multiset(mine)| == |multiset(mine')| == |mine'|;
    KeyOrder();
    SortedDistinctPermutes(KeyLe, KeyIn(sec), mine, mine');
    var keys := Keys(sec, mine);
    assert keys == Keys(sec, mine');
    forall i | 0 <= i < |keys|
      ensures TableRow(sec, mine, backends, fmt, keys[i]) == TableRow(sec, mine', backends, fmt, keys[i])
    {
      TableRowPermutes(sec, mine, mine', backends, fmt, keys[i]);
    }
    assert TableRows(sec, mine, backends, fmt, keys) == TableRows(sec, mine', backends, fmt, keys);
  }

  lemma NamesPermute(rows: seq<Row>, rows': seq<Row>)
    requires multiset(rows) == multiset(rows')
    ensures Backends(rows) == Backends(rows') && Architectures(rows) == Architectures(rows')
  {
    NameOrders();
    SortedDistinctPermutes(BackendLe, BackendIn(), rows, rows');
    SortedDistinctPermutes(ArchitectureLe, ArchitectureIn(), rows, rows');
  }

  lemma SectionsPermute(rows: seq<Row>, rows': seq<Row>, fmt: Format)
    requires multiset(rows) == multiset(rows')
    ensures Backends(rows) == Backends(rows')
    ensures Sections(rows, Backends(rows), fmt) == Sections(rows', Backends(rows'), fmt)
  {
    NamesPermute(rows, rows');
    SectionPermutes(Primitive, rows, rows', Backends(rows), fmt);
    SectionPermutes(Handshake, rows, rows', Backends(rows), fmt);
    SectionPermutes(Transfer, rows, rows', Backends(rows), fmt);
  }

  // ----- membership

  lemma ArchitectureMember(rows: seq<Row>, a: string, r: Row)
    ensures r in RowsOf(rows, a) <==> r in rows && ArchitectureOf(r) == a
  {
    CollectMember(OfArchitecture(a), rows, r);
    if r in rows && ArchitectureOf(r) == a {
      var i :| 0 <= i < |rows| && rows[i] == r;
      assert OfArchitecture(a)(rows[i]) == Some(r);
    }
  }

  lemma SectionMember(sec: Section, rows: seq<Row>, r: Row)
    ensures r in SectionRows(sec, rows) <==> r in rows && InSection(sec, r)
  {
    CollectMember(OfSection(sec), rows, r);
    if r in rows && InSection(sec, r) {
      var i :| 0 <= i < |rows| && rows[i] == r;
      assert OfSection(sec)(rows[i]) == Some(r);
    }
  }

  lemma BackendMember(rows: seq<Row>, b: string)
    ensures b in Backends(rows) <==> exists r :: r in rows && r.backend == Some(b)
  {
    var all := Collect(BackendIn(), rows);
    SortKeepsMembers(BackendLe, Distinct(all), b);
    DistinctElements(all);
    CollectMember(BackendIn(), rows, b);
    if r :| r in rows && r.backend == Some(b) {
      var i :| 0 <= i < |rows| && rows[i] == r;
      assert BackendIn()(rows[i]) == Some(b);
    }
    if b in all {
      var i :| 0 <= i < |rows| && BackendIn()(rows[i]) == Some(b);
      assert rows[i] in rows && rows[i].backend == Some(b);
    }
  }
}
