/** No sample is lost or counted twice on its way into the report, every table is rectangular,
    and the tables can be read back from the report. */
module SummaryCounts {
  import opened Prelude
  import opened Sorting
  import opened MarkdownTable
  import opened Summary
  import opened SummaryOrder
  import opened SummaryLayout
  import opened SummaryText

  // ----- rows as the C runners print them

  predicate Labelled(r: Row) { r.architecture.Some? && r.backend.Some? && r.version.Some? && r.messageBytes.Some? }

  predicate AeadRow(r: Row) {
    && Labelled(r) && r.algorithm.Some? && r.operation.Some? && r.mibPerSecond.Some?
    && r.benchmark.None? && r.cipher.None? && r.handshakesPerSecond.None?
  }

  predicate HandshakeRow(r: Row) {
    && Labelled(r) && r.benchmark == Some("tls-handshake") && r.cipher.Some? && r.handshakesPerSecond.Some?
    && r.algorithm.None? && r.operation.None? && r.mibPerSecond.None?
  }

  predicate TransferRow(r: Row) {
    && Labelled(r) && r.benchmark == Some("tls-transfer") && r.cipher.Some? && r.mibPerSecond.Some?
    && r.algorithm.None? && r.operation.None? && r.handshakesPerSecond.None?
  }

  predicate PrintedRow(r: Row) { AeadRow(r) || HandshakeRow(r) || TransferRow(r) }

  function SectionFor(r: Row): Section {
    if r.algorithm.Some? then Primitive else if r.benchmark == Some("tls-handshake") then Handshake else Transfer
  }

  /** Where a sample shows in the report. */
  datatype Place = Place(architecture: string, section: Section, group: Group)

  function PlaceOf(): Row -> Option<Place> {
    (r: Row) =>
      match GroupOf(SectionFor(r))(r)
      case None => None
      case Some(g) => Some(Place(ArchitectureOf(r), SectionFor(r), g))
  }

  function Places(rows: seq<Row>): seq<Place> { Distinct(Collect(PlaceOf(), rows)) }

  /** The samples behind one cell of the report. */
  function SamplesAt(rows: seq<Row>, p: Place): seq<real> {
    Samples(p.section, SectionRows(p.section, RowsOf(rows, p.architecture)), p.group)
  }

  function TotalSamples(rows: seq<Row>, ps: seq<Place>): nat {
    if ps == [] then 0 else TotalSamples(rows, ps[..|ps| - 1]) + |SamplesAt(rows, ps[|ps| - 1])|
  }

  // ----- the classes of a partition add up

  function At<S, K(==)>(f: S -> Option<K>, k: K): S -> Option<S> { (x: S) => if f(x) == Some(k) then Some(x) else None }

  function ClassSizes<S, K(==)>(f: S -> Option<K>, rows: seq<S>, ks: seq<K>): nat {
    if ks == [] then 0 else ClassSizes(f, rows, ks[..|ks| - 1]) + |Collect(At(f, ks[|ks| - 1]), rows)|
  }

  lemma CollectOne<S, T>(f: S -> Option<T>, x: S)
    ensures Collect(f, [x]) == match f(x) case None => [] case Some(y) => [y]
  {
  }

  lemma ClassSizesAppend<S, K>(f: S -> Option<K>, rows: seq<S>, ks: seq<K>, k: K)
    ensures ClassSizes(f, rows, ks + [k]) == ClassSizes(f, rows, ks) + |Collect(At(f, k), rows)|
  {
    assert (ks + [k])[..|ks|] == ks;
  }

  lemma ClassGrows<S, K>(f: S -> Option<K>, rows: seq<S>, x: S, k: K)
    ensures |Collect(At(f, k), rows + [x])| == |Collect(At(f, k), rows)| + if f(x) == Some(k) then 1 else 0
  {
    CollectAppend(At(f, k), rows, [x]);
    CollectOne(At(f, k), x);
  }

  lemma {:induction false} OneMore<S, K>(f: S -> Option<K>, rows: seq<S>, x: S, ks: seq<K>)
    requires NoRepeats(ks)
    ensures ClassSizes(f, rows + [x], ks) == ClassSizes(f, rows, ks) + if f(x).Some? && f(x).value in ks then 1 else 0
  {
    if ks == [] {
    } else {
      var k, front := ks[|ks| - 1], ks[..|ks| - 1];
      assert ks == front + [k] && k !in front;
      hide ClassSizes, Collect, At;
      OneMore(f, rows, x, front);
      ClassGrows(f, rows, x, k);
      ClassSizesAppend(f, rows, front, k);
      ClassSizesAppend(f, rows + [x], front, k);
    }
  }

  lemma {:induction false} NothingAt<S, K>(f: S -> Option<K>, rows: seq<S>, k: K)
    requires k !in Collect(f, rows)
    ensures Collect(At(f, k), rows) == []
  {
    if rows != [] {
      NothingAt(f, rows[..|rows| - 1], k);
    }
  }

  /** A new class starts with one member. */
  lemma NewClass<S, K>(f: S -> Option<K>, rows: seq<S>, x: S, ks: seq<K>)
    requires f(x).Some? && f(x).value !in Collect(f, rows) && f(x).value !in ks && NoRepeats(ks)
    ensures ClassSizes(f, rows + [x], ks + [f(x).value]) == ClassSizes(f, rows, ks) + 1
  {
    var k := f(x).value;
    OneMore(f, rows, x, ks);
    NothingAt(f, rows, k);
    ClassGrows(f, rows, x, k);
    ClassSizesAppend(f, rows + [x], ks, k);
  }

  lemma ClassesAddUpStep<S, K>(f: S -> Option<K>, front: seq<S>, x: S)
    requires ClassSizes(f, front, Distinct(Collect(f, front))) == |Collect(f, front)|
    ensures ClassSizes(f, front + [x], Distinct(Collect(f, front + [x]))) == |Collect(f, front + [x])|
  {
    hide Collect, ClassSizes, Distinct;
    var before := Collect(f, front);
    DistinctElements(before);
    CollectAppend(f, front, [x]);
    CollectOne(f, x);
    OneMore(f, front, x, Distinct(before));
    if f(x).None? {
      assert before + [] == before;
    } else {
      var k := f(x).value;
      DistinctAppend(before, k);
      DistinctMember(before, k);
      if k !in Distinct(before) {
        NewClass(f, front, x, Distinct(before));
      }
    }
  }

  lemma {:induction false} ClassesAddUp<S, K>(f: S -> Option<K>, rows: seq<S>)
    ensures ClassSizes(f, rows, Distinct(Collect(f, rows))) == |Collect(f, rows)|
  {
    if rows == [] {
    } else {
      hide *;
      var front, x := rows[..|rows| - 1], rows[|rows| - 1];
      ClassesAddUp(f, front);
      ClassesAddUpStep(f, front, x);
      assert rows == front + [x];
    }
  }

  lemma DistinctMember<T>(s: seq<T>, x: T)
    ensures x in Distinct(s) <==> x in s
  {
    DistinctElements(s);
  }

  lemma DistinctAppend<T>(s: seq<T>, x: T)
    ensures Distinct(s + [x]) == if x in Distinct(s) then Distinct(s) else Distinct(s) + [x]
  {
    assert (s + [x])[..|s|] == s;
  }

  // ----- the cells of the report are such classes

  lemma {:induction false} SameShape<S, T, U>(f: S -> Option<T>, g: S -> Option<U>, rows: seq<S>)
    requires forall i :: 0 <= i < |rows| ==> (f(rows[i]).Some? <==> g(rows[i]).Some?)
    ensures |Collect(f, rows)| == |Collect(g, rows)|
  {
    if rows != [] {
      SameShape(f, g, rows[..|rows| - 1]);
    }
  }

  function Then<S, T, U>(f: S -> Option<T>, g: T -> Option<U>): S -> Option<U> {
    (x: S) => match f(x) case None => None case Some(y) => g(y)
  }

  lemma {:induction false} CollectTwice<S, T, U>(f: S -> Option<T>, g: T -> Option<U>, rows: seq<S>)
    ensures Collect(g, Collect(f, rows)) == Collect(Then(f, g), rows)
  {
    if rows != [] {
      var front, x := rows[..|rows| - 1], rows[|rows| - 1];
      CollectTwice(f, g, front);
      if f(x).Some? {
        CollectAppend(g, Collect(f, front), [f(x).value]);
        assert Collect(g, [f(x).value]) == match g(f(x).value) case None => [] case Some(z) => [z];
      } else {
        assert Collect(f, rows) == Collect(f, front);
      }
    }
  }

  lemma CellIsClass(rows: seq<Row>, p: Place)
    requires forall i :: 0 <= i < |rows| ==> PrintedRow(rows[i])
    ensures |SamplesAt(rows, p)| == |Collect(At(PlaceOf(), p), rows)|
  {
    var a, s, g := OfArchitecture(p.architecture), OfSection(p.section), SampleOf(p.section, p.group);
    CollectTwice(a, s, rows);
    CollectTwice(Then(a, s), g, rows);
    hide Collect;
    var whole := Then(Then(a, s), g);
    forall i | 0 <= i < |rows|
      ensures whole(rows[i]).Some? <==> At(PlaceOf(), p)(rows[i]).Some?
    {
      OnePlace(rows[i], p);
    }
    SameShape(whole, At(PlaceOf(), p), rows);
  }

  lemma OnePlace(r: Row, p: Place)
    requires PrintedRow(r)
    ensures Then(Then(OfArchitecture(p.architecture), OfSection(p.section)), SampleOf(p.section, p.group))(r).Some?
       <==> PlaceOf()(r) == Some(p)
  {
    var sec := SectionFor(r);
    assert InSection(sec, r) && GroupOf(sec)(r).Some? && Metric(sec, r).Some?;
    assert forall other :: InSection(other, r) ==> other == sec;
  }

  lemma {:induction false} TotalIsClassSizes(rows: seq<Row>, ps: seq<Place>)
    requires forall i :: 0 <= i < |rows| ==> PrintedRow(rows[i])
    ensures TotalSamples(rows, ps) == ClassSizes(PlaceOf(), rows, ps)
  {
    if ps != [] {
      TotalIsClassSizes(rows, ps[..|ps| - 1]);
      CellIsClass(rows, ps[|ps| - 1]);
    }
  }

  /** Every row the runners print is in one section only and behind exactly one cell: the places
      are all different and their sample counts add up to the number of rows. */
  lemma EverySampleOnce(rows: seq<Row>)
    requires forall i :: 0 <= i < |rows| ==> PrintedRow(rows[i])
    ensures NoRepeats(Places(rows)) && TotalSamples(rows, Places(rows)) == |rows|
    ensures forall i :: 0 <= i < |rows| ==>
              && PlaceOf()(rows[i]).Some? && PlaceOf()(rows[i]).value in Places(rows)
              && forall sec :: InSection(sec, rows[i]) <==> sec == PlaceOf()(rows[i]).value.section
  {
    hide Collect, Distinct, TotalSamples, ClassSizes;
    var all := Collect(PlaceOf(), rows);
    TotalIsClassSizes(rows, Distinct(all));
    ClassesAddUp(PlaceOf(), rows);
    DistinctElements(all);
    forall i | 0 <= i < |rows|
      ensures PlaceOf()(rows[i]).Some? && PlaceOf()(rows[i]).value in Distinct(all)
      ensures forall sec :: InSection(sec, rows[i]) <==> sec == PlaceOf()(rows[i]).value.section
    {
      PrintedRowHasPlace(rows[i]);
      CollectMember(PlaceOf(), rows, PlaceOf()(rows[i]).value);
    }
    CollectAll(PlaceOf(), rows);
  }

  lemma PrintedRowHasPlace(r: Row)
    requires PrintedRow(r)
    ensures PlaceOf()(r).Some? && forall sec :: InSection(sec, r) <==> sec == PlaceOf()(r).value.section
  {
    assert GroupOf(SectionFor(r))(r).Some?;
  }

  /** A cell shows a number exactly when its group has a sample, and the number is a median
      of the samples: at least half of them are on either side of it. */
  lemma CellIsMedian(sec: Section, rows: seq<Row>, g: Group)
    ensures Cell(sec, rows, g).Some? <==> g in Groups(sec, rows)
    ensures Cell(sec, rows, g).Some? ==>
              var m, s := Cell(sec, rows, g).value, Samples(sec, rows, g);
              2 * |Collect(Below(m), s)| >= |s| && 2 * |Collect(Above(m), s)| >= |s|
  {
    var s := Samples(sec, rows, g);
    DistinctElements(Collect(GroupOf(sec), rows));
    CollectMember(GroupOf(sec), rows, g);
    if s != [] {
      CollectMember(SampleOf(sec, g), rows, s[0]);
      MedianHalves(s);
    }
    if i :| 0 <= i < |rows| && GroupOf(sec)(rows[i]) == Some(g) {
      CollectMember(SampleOf(sec, g), rows, Metric(sec, rows[i]).value);
    }
  }

  // ----- the shape of the tables

  lemma KeyWidth(sec: Section, rows: seq<Row>, key: Key)
    requires key in Keys(sec, rows)
    ensures |key| == |KeyHeadings(sec)|
  {
    var all := Collect(KeyIn(sec), rows);
    SortKeepsMembers(KeyLe, Distinct(all), key);
    DistinctElements(all);
    CollectMember(KeyIn(sec), rows, key);
    hide Collect, Sort, Distinct;
    var i :| 0 <= i < |rows| && KeyIn(sec)(rows[i]) == Some(key);
    KeyInMeans(sec, rows[i], key);
  }

  lemma KeyInMeans(sec: Section, r: Row, key: Key)
    requires KeyIn(sec)(r) == Some(key)
    ensures |key| == |KeyHeadings(sec)|
  {
    var g := GroupOf(sec)(r);
    assert g.Some? && g.value.0 == key;
    assert KeyOf(sec, r) == Some(key);
  }

  /** Every row of a table has a cell for every heading, whatever backends there are. */
  lemma TablesAreRectangular(sec: Section, rows: seq<Row>, backends: seq<string>, fmt: Format, i: nat)
    requires i < |SectionTable(sec, rows, backends, fmt).rows|
    ensures var t := SectionTable(sec, rows, backends, fmt);
            |t.rows[i]| == |t.headings| > 0
  {
    KeyWidth(sec, rows, Keys(sec, rows)[i]);
  }

  /** A ratio is printed exactly when the baseline and the other backend both have samples of
      that key and the baseline is not zero; it is the ratio of the medians. */
  lemma RatioShown(sec: Section, rows: seq<Row>, backends: seq<string>, fmt: Format, key: Key)
    requires "openssl" in backends && "libressl" in backends && key in Keys(sec, rows)
    ensures var cells, at := TableRow(sec, rows, backends, fmt, key), |KeyHeadings(sec)| + |backends|;
            var top, bottom := Cell(sec, rows, (key, "openssl")), Cell(sec, rows, (key, "libressl"));
            && at < |cells| == |Headings(sec, backends)|
            && Headings(sec, backends)[at] == "OpenSSL / baseline"
            && (top.Some? <==> (key, "openssl") in Groups(sec, rows))
            && (bottom.Some? <==> (key, "libressl") in Groups(sec, rows))
            && cells[at] == if top.Some? && bottom.Some? && bottom.value != 0.0
                            then fmt.ratio(top.value / bottom.value) + "×" else "—"
  {
    hide Cell, Groups, Keys;
    KeyWidth(sec, rows, key);
    CellIsMedian(sec, rows, (key, "openssl"));
    CellIsMedian(sec, rows, (key, "libressl"));
  }

  /** The same for the column of the patched library, which follows. */
  lemma PatchedRatioShown(sec: Section, rows: seq<Row>, backends: seq<string>, fmt: Format, key: Key)
    requires "libressl-patched" in backends && "libressl" in backends && key in Keys(sec, rows)
    ensures var cells := TableRow(sec, rows, backends, fmt, key);
            var at := |KeyHeadings(sec)| + |backends| + if "openssl" in backends then 1 else 0;
            var top, bottom := Cell(sec, rows, (key, "libressl-patched")), Cell(sec, rows, (key, "libressl"));
            && at + 1 == |cells| == |Headings(sec, backends)|
            && Headings(sec, backends)[at] == "Patched / baseline"
            && (top.Some? <==> (key, "libressl-patched") in Groups(sec, rows))
            && (bottom.Some? <==> (key, "libressl") in Groups(sec, rows))
            && cells[at] == if top.Some? && bottom.Some? && bottom.value != 0.0
                            then fmt.patchedRatio(top.value / bottom.value) + "×" else "—"
  {
    hide Cell, Groups, Keys;
    KeyWidth(sec, rows, key);
    CellIsMedian(sec, rows, (key, "libressl-patched"));
    CellIsMedian(sec, rows, (key, "libressl"));
  }

  /** The cell of a key and a backend shows the median of the group, or a dash if there is no
      sample of it. */
  lemma CellShown(sec: Section, rows: seq<Row>, backends: seq<string>, fmt: Format, key: Key, j: nat)
    requires key in Keys(sec, rows) && j < |backends|
    ensures var cells, g := TableRow(sec, rows, backends, fmt, key), (key, backends[j]);
            && |key| + j < |cells|
            && (g in Groups(sec, rows) <==> Samples(sec, rows, g) != [])
            && cells[|key| + j] == if g in Groups(sec, rows) then fmt.rate(Median(Samples(sec, rows, g))) else "—"
  {
    var g := (key, backends[j]);
    CellIsMedian(sec, rows, g);
    assert Cell(sec, rows, g).Some? <==> Samples(sec, rows, g) != [];
    assert Cell(sec, rows, g).Some? ==> Cell(sec, rows, g).value == Median(Samples(sec, rows, g));
    hide Cell, Groups, Keys, Samples, Median, RatioCells;
  }

  // ----- the order of the lines

  /** The two fields are of one kind, and the first is the smaller string or number. */
  ghost predicate FieldBefore(a: Field, b: Field) {
    match (a, b)
    case (Text(x), Text(y)) => StringBefore(x, y)
    case (Num(m), Num(n)) => m < n
    case _ => false
  }

  lemma FieldLeMeans(a: Field, b: Field)
    requires FieldLe(a, b) && a != b && (a.Num? <==> b.Num?)
    ensures FieldBefore(a, b)
  {
    if a.Text? {
      StringLeMeans(a.text, b.text);
    }
  }

  lemma KeyShape(sec: Section, rows: seq<Row>, key: Key, n: nat)
    requires key in Keys(sec, rows) && n < |KeyHeadings(sec)|
    ensures |key| == |KeyHeadings(sec)| && (key[n].Num? <==> KeyHeadings(sec)[n] == "Bytes")
  {
    KeyWidth(sec, rows, key);
    var all := Collect(KeyIn(sec), rows);
    SortKeepsMembers(KeyLe, Distinct(all), key);
    DistinctElements(all);
    CollectMember(KeyIn(sec), rows, key);
    hide Collect, Sort, Distinct;
    var i :| 0 <= i < |rows| && KeyIn(sec)(rows[i]) == Some(key);
    KeyInShape(sec, rows[i], key, n);
  }

  lemma KeyInShape(sec: Section, r: Row, key: Key, n: nat)
    requires KeyIn(sec)(r) == Some(key) && n < |KeyHeadings(sec)|
    ensures |key| == |KeyHeadings(sec)| && (key[n].Num? <==> KeyHeadings(sec)[n] == "Bytes")
  {
    var g := GroupOf(sec)(r);
    assert g.Some? && g.value.0 == key;
    assert KeyOf(sec, r) == Some(key);
    match sec case Primitive => case Handshake => case Transfer =>
  }

  /** The lines of a table stand in the order of their keys: by algorithm, operation and size, or
      cipher, or cipher and size, with sizes compared as numbers. No two have the same key. */
  lemma LinesAreOrdered(sec: Section, rows: seq<Row>, backends: seq<string>, fmt: Format, i: nat, j: nat) returns (n: nat)
    requires i < j < |SectionTable(sec, rows, backends, fmt).rows|
    ensures var t, k, l := SectionTable(sec, rows, backends, fmt), Keys(sec, rows)[i], Keys(sec, rows)[j];
            && |k| == |l| <= |t.rows[i]| == |t.rows[j]|
            && t.rows[i][..|k|] == KeyCells(fmt, k) && t.rows[j][..|l|] == KeyCells(fmt, l)
            && n < |k| && k[..n] == l[..n] && FieldBefore(k[n], l[n])
  {
    var all := Collect(KeyIn(sec), rows);
    var k, l := Keys(sec, rows)[i], Keys(sec, rows)[j];
    KeyOrder();
    SortSorts(KeyLe, Distinct(all));
    DistinctElements(all);
    SortKeepsDistinct(KeyLe, Distinct(all));
    assert KeyLe(k, l) && k != l;
    TablesAreRectangular(sec, rows, backends, fmt, i);
    TablesAreRectangular(sec, rows, backends, fmt, j);
    LineBegins(sec, rows, backends, fmt, i);
    LineBegins(sec, rows, backends, fmt, j);
    KeyWidth(sec, rows, k);
    KeyWidth(sec, rows, l);
    hide Keys, SectionTable, KeyCells, KeyHeadings, FieldLe;
    n := LexMeans(FieldLe, k, l);
    KeyShape(sec, rows, k, n);
    KeyShape(sec, rows, l, n);
    FieldLeMeans(k[n], l[n]);
  }

  lemma LineBegins(sec: Section, rows: seq<Row>, backends: seq<string>, fmt: Format, i: nat)
    requires i < |Keys(sec, rows)|
    ensures var t, k := SectionTable(sec, rows, backends, fmt), Keys(sec, rows)[i];
            |k| <= |t.rows[i]| && t.rows[i][..|k|] == KeyCells(fmt, k)
  {
    hide Keys, RateCells, RatioCells;
  }

  // ----- the tables can be read from the report

  lemma BackendHeadingPipe(sec: Section, backend: string)
    ensures '|' in DisplayBackend(backend) + Unit(sec) <==> '|' in backend
  {
    assert '|' !in Unit(sec);
    assert '|' in backend ==> DisplayBackend(backend) == backend;
    assert '|' !in "OpenSSL" && '|' !in "LibreSSL baseline" && '|' !in "LibreSSL patched";
  }

  lemma PipeFreeConcat(a: seq<string>, b: seq<string>)
    ensures PipeFree(a + b) <==> PipeFree(a) && PipeFree(b)
  {
    var ab := a + b;
    assert forall i :: 0 <= i < |a| ==> a[i] == ab[i];
    assert forall i :: 0 <= i < |b| ==> b[i] == ab[|a| + i];
    if PipeFree(a) && PipeFree(b) {
      forall j | 0 <= j < |ab|
        ensures '|' !in ab[j]
      {
        assert ab[j] == if j < |a| then a[j] else b[j - |a|];
      }
    }
  }

  lemma FixedHeadingsPipes(sec: Section, backends: seq<string>)
    ensures PipeFree(KeyHeadings(sec)) && PipeFree(RatioHeadings(backends))
  {
    assert '|' !in "Algorithm" && '|' !in "Operation" && '|' !in "Bytes" && '|' !in "Cipher";
    assert '|' !in "OpenSSL / baseline" && '|' !in "Patched / baseline";
    PipeFreeConcat(if HasRatio(backends) then ["OpenSSL / baseline"] else [],
                   if HasPatchedRatio(backends) then ["Patched / baseline"] else []);
  }

  lemma HeadingPipes(sec: Section, backends: seq<string>)
    ensures PipeFree(Headings(sec, backends)) <==> PipeFree(backends)
  {
    FixedHeadingsPipes(sec, backends);
    var names := BackendHeadings(sec, backends);
    PipeFreeConcat(KeyHeadings(sec) + names, RatioHeadings(backends));
    PipeFreeConcat(KeyHeadings(sec), names);
    forall i | 0 <= i < |backends|
      ensures '|' in names[i] <==> '|' in backends[i]
    {
      BackendHeadingPipe(sec, backends[i]);
    }
  }

  /** A table of measurements is read back from its lines if and only if no backend has a pipe
      in its name. */
  lemma SectionIsReadBackExactlyWhen(sec: Section, rows: seq<Row>, backends: seq<string>, fmt: Format)
    ensures ReadTable(TableLines(SectionTable(sec, rows, backends, fmt))) == Some(SectionTable(sec, rows, backends, fmt))
       <==> PipeFree(backends)
  {
    var t := SectionTable(sec, rows, backends, fmt);
    forall i | 0 <= i < |t.rows|
      ensures t.rows[i] != []
    {
      TablesAreRectangular(sec, rows, backends, fmt, i);
    }
    HeadingPipes(sec, backends);
    TableIsReadBackExactlyWhen(t);
  }

  /** The version table is always read back, whatever backends and versions are called. */
  lemma VersionsAreReadBack(rows: seq<Row>, backends: seq<string>)
    ensures ReadTable(TableLines(VersionTable(rows, backends))) == Some(VersionTable(rows, backends))
  {
    TableIsReadBackExactlyWhen(VersionTable(rows, backends));
  }

  // ----- from a row of the results to the cell it is behind

  /** The place of a backend among the columns. */
  lemma BackendColumn(sec: Section, backends: seq<string>, j: nat)
    requires j < |backends|
    ensures var h := Headings(sec, backends);
            |KeyHeadings(sec)| + j < |h| && h[|KeyHeadings(sec)| + j] == DisplayBackend(backends[j]) + Unit(sec)
  {
  }

  /** A sample has a table row for its key and, in the column of its backend, the median of its group. */
  lemma SampleIsBehindCell(sec: Section, rows: seq<Row>, backends: seq<string>, fmt: Format, r: Row) returns (i: nat, j: nat)
    requires r in rows && GroupOf(sec)(r).Some? && r.backend.value in backends
    ensures var g, t := GroupOf(sec)(r).value, SectionTable(sec, rows, backends, fmt);
            var keys := |KeyHeadings(sec)|;
            && i < |t.rows| && j < |backends| && backends[j] == r.backend.value
            && |t.rows[i]| == |t.headings| >= keys + |backends|
            && t.rows[i][..keys] == KeyCells(fmt, g.0)
            && Samples(sec, rows, g) != []
            && t.rows[i][keys + j] == fmt.rate(Median(Samples(sec, rows, g)))
  {
    hide *;
    var g := GroupOf(sec)(r).value;
    KeyIsListed(sec, rows, r);
    GroupBackend(sec, r);
    j :| 0 <= j < |backends| && backends[j] == r.backend.value;
    i :| 0 <= i < |Keys(sec, rows)| && Keys(sec, rows)[i] == g.0;
    assert g == (g.0, backends[j]);
    KeyWidth(sec, rows, g.0);
    RowAt(sec, rows, backends, fmt, i);
    TablesAreRectangular(sec, rows, backends, fmt, i);
    RowCells(sec, rows, backends, fmt, g.0, j, Median(Samples(sec, rows, g)));
    HeadingCount(sec, backends);
  }

  lemma RowAt(sec: Section, rows: seq<Row>, backends: seq<string>, fmt: Format, i: nat)
    requires i < |Keys(sec, rows)|
    ensures var t := SectionTable(sec, rows, backends, fmt);
            i < |t.rows| && t.rows[i] == TableRow(sec, rows, backends, fmt, Keys(sec, rows)[i]) && t.headings == Headings(sec, backends)
  {
  }

  lemma GroupBackend(sec: Section, r: Row)
    requires GroupOf(sec)(r).Some?
    ensures r.backend == Some(GroupOf(sec)(r).value.1)
  {
  }

  lemma HeadingCount(sec: Section, backends: seq<string>)
    ensures |Headings(sec, backends)| >= |KeyHeadings(sec)| + |backends|
  {
  }

  lemma RowCells(sec: Section, rows: seq<Row>, backends: seq<string>, fmt: Format, key: Key, j: nat, median: real)
    requires j < |backends| && Cell(sec, rows, (key, backends[j])) == Some(median)
    ensures var row := TableRow(sec, rows, backends, fmt, key);
            && |row| >= |key| + |backends| && row[..|key|] == KeyCells(fmt, key)
            && row[|key| + j] == fmt.rate(median)
  {
    hide Cell, RatioCells;
  }

  lemma KeyIsListed(sec: Section, rows: seq<Row>, r: Row)
    requires r in rows && GroupOf(sec)(r).Some?
    ensures var g := GroupOf(sec)(r).value;
            && g.0 in Keys(sec, rows) && Samples(sec, rows, g) != []
            && Cell(sec, rows, g) == Some(Median(Samples(sec, rows, g)))
  {
    var g, all := GroupOf(sec)(r).value, Collect(KeyIn(sec), rows);
    var i :| 0 <= i < |rows| && rows[i] == r;
    assert KeyIn(sec)(rows[i]) == Some(g.0) && SampleOf(sec, g)(rows[i]) == Metric(sec, r);
    CollectMember(KeyIn(sec), rows, g.0);
    CollectMember(SampleOf(sec, g), rows, Metric(sec, r).value);
    DistinctElements(all);
    SortKeepsMembers(KeyLe, Distinct(all), g.0);
  }

  lemma {:induction false} CollectSame<S, T>(f: S -> Option<T>, g: S -> Option<T>, rows: seq<S>)
    requires forall r :: f(r) == g(r)
    ensures Collect(f, rows) == Collect(g, rows)
  {
    if rows != [] {
      CollectSame(f, g, rows[..|rows| - 1]);
    }
  }

  // ----- from a row of the results to the report

  /** Whether q measures the same thing as the printed row r: its benchmark, algorithm or cipher,
      operation and message size, as far as they matter. */
  predicate SameMeasurement(q: Row, r: Row) {
    if r.algorithm.Some? then q.algorithm == r.algorithm && q.operation == r.operation && q.messageBytes == r.messageBytes
    else if r.benchmark == Some("tls-handshake") then q.benchmark == r.benchmark && q.cipher == r.cipher
    else q.benchmark == r.benchmark && q.cipher == r.cipher && q.messageBytes == r.messageBytes
  }

  /** The numbers measured like r: on its architecture, by its backend, of the same thing. */
  function Like(r: Row): Row -> Option<real> {
    (q: Row) =>
      if ArchitectureOf(q) == ArchitectureOf(r) && q.backend == r.backend && SameMeasurement(q, r)
      then (if r.benchmark == Some("tls-handshake") then q.handshakesPerSecond else q.mibPerSecond)
      else None
  }

  /** How the line of r begins, and how the heading above its number ends. */
  function LineStart(r: Row, fmt: Format): seq<string>
    requires PrintedRow(r)
  {
    if r.algorithm.Some? then [r.algorithm.value, r.operation.value, fmt.number(r.messageBytes.value)]
    else if r.benchmark == Some("tls-handshake") then [r.cipher.value]
    else [r.cipher.value, fmt.number(r.messageBytes.value)]
  }

  function UnitOf(r: Row): string { if r.benchmark == Some("tls-handshake") then " handshakes/s" else " MiB/s" }

  lemma LineStartIsKey(r: Row, fmt: Format)
    requires PrintedRow(r)
    ensures var sec := SectionFor(r);
            && KeyOf(sec, r).Some? && KeyCells(fmt, KeyOf(sec, r).value) == LineStart(r, fmt)
            && |LineStart(r, fmt)| == |KeyHeadings(sec)| && Unit(sec) == UnitOf(r)
  {
    match SectionFor(r)
    case Primitive => assert KeyCells(fmt, KeyOf(Primitive, r).value) == LineStart(r, fmt);
    case Handshake => assert KeyCells(fmt, KeyOf(Handshake, r).value) == LineStart(r, fmt);
    case Transfer => assert KeyCells(fmt, KeyOf(Transfer, r).value) == LineStart(r, fmt);
  }

  lemma SameKeyIsSameMeasurement(r: Row, q: Row)
    requires PrintedRow(r)
    ensures var sec := SectionFor(r);
            InSection(sec, q) && KeyOf(sec, q) == KeyOf(sec, r) <==> SameMeasurement(q, r)
  {
  }

  lemma SampleIsLike(r: Row, g: Group, q: Row)
    requires PrintedRow(r) && GroupOf(SectionFor(r))(r) == Some(g)
    ensures Then(Then(OfArchitecture(ArchitectureOf(r)), OfSection(SectionFor(r))), SampleOf(SectionFor(r), g))(q) == Like(r)(q)
  {
    var sec := SectionFor(r);
    SameKeyIsSameMeasurement(r, q);
    assert Metric(sec, q) == if r.benchmark == Some("tls-handshake") then q.handshakesPerSecond else q.mibPerSecond;
    hide KeyOf, Metric, InSection, SectionFor, SameMeasurement, PrintedRow;
    assert g == (KeyOf(sec, r).value, r.backend.value);
    if GroupOf(sec)(q).Some? {
      assert GroupOf(sec)(q).value == (KeyOf(sec, q).value, q.backend.value);
    }
  }

  lemma LikeIsSampled(rows: seq<Row>, r: Row)
    requires PrintedRow(r)
    ensures PlaceOf()(r).Some? && SamplesAt(rows, PlaceOf()(r).value) == Collect(Like(r), rows)
  {
    PrintedRowHasPlace(r);
    var p := PlaceOf()(r).value;
    var a, s, g := OfArchitecture(p.architecture), OfSection(p.section), SampleOf(p.section, p.group);
    CollectTwice(a, s, rows);
    CollectTwice(Then(a, s), g, rows);
    hide Collect;
    forall q: Row
      ensures Then(Then(a, s), g)(q) == Like(r)(q)
    {
      SampleIsLike(r, p.group, q);
    }
    CollectSame(Then(Then(a, s), g), Like(r), rows);
  }

  predicate ArchitectureHeading(line: string) { |line| >= 3 && line[..3] == "## " }

  predicate NoHeading(lines: seq<string>) { forall i :: 0 <= i < |lines| ==> !ArchitectureHeading(lines[i]) }

  lemma TableLinesHaveNoHeading(t: Table)
    ensures NoHeading(TableLines(t))
  {
    hide Join, EscapeAll, Dashes;
    forall i | 0 <= i < |t.rows|
      ensures !ArchitectureHeading(RowLines(t.rows)[i])
    {
      assert RowLines(t.rows)[i][0] == '|';
    }
    assert Line(t.headings)[0] == '|' && Line(Dashes(|t.headings|))[0] == '|';
  }

  lemma SectionLinesHaveNoHeading(sec: Section, mine: seq<Row>, backends: seq<string>, fmt: Format)
    ensures NoHeading(SectionLines(sec, mine, backends, fmt))
  {
    hide TableLines, SectionTable, SectionRows;
    TableLinesHaveNoHeading(SectionTable(sec, SectionRows(sec, mine), backends, fmt));
    assert Title(sec)[2] == '#';
  }

  /** Where the table of a section stands among the lines of its architecture. */
  lemma SectionInArchitecture(sec: Section, mine: seq<Row>, a: string, fmt: Format) returns (between: seq<string>, behind: seq<string>)
    ensures ArchitectureLines(mine, a, fmt) ==
              ["## Architecture: `" + a + "`"] + between + SectionLines(sec, mine, Backends(mine), fmt) + behind
    ensures NoHeading(between)
  {
    var backends := Backends(mine);
    hide Backends, SectionLines, TableLines, VersionTable;
    var versions := [""] + TableLines(VersionTable(mine, backends));
    TableLinesHaveNoHeading(VersionTable(mine, backends));
    var one, two, three := SectionLines(Primitive, mine, backends, fmt), SectionLines(Handshake, mine, backends, fmt),
                           SectionLines(Transfer, mine, backends, fmt);
    SectionLinesHaveNoHeading(Primitive, mine, backends, fmt);
    SectionLinesHaveNoHeading(Handshake, mine, backends, fmt);
    match sec {
      case Primitive => between, behind := versions, two + three;
      case Handshake => between, behind := versions + one, three;
      case Transfer => between, behind := versions + one + two, [];
    }
  }

  lemma RowIsListed(rows: seq<Row>, r: Row)
    requires r in rows && PrintedRow(r)
    ensures var mine := RowsOf(rows, ArchitectureOf(r));
            r in SectionRows(SectionFor(r), mine) && r.backend.Some? && r.backend.value in Backends(mine)
  {
    hide RowsOf, SectionRows, Backends;
    var mine := RowsOf(rows, ArchitectureOf(r));
    ArchitectureMember(rows, ArchitectureOf(r), r);
    SectionMember(SectionFor(r), mine, r);
    BackendMember(mine, r.backend.value);
  }

  lemma ArchitectureInReport(rows: seq<Row>, title: string, fmt: Format, r: Row) returns (before: seq<string>, behind: seq<string>)
    requires r in rows
    ensures var a := ArchitectureOf(r);
            ReportLines(rows, title, fmt) == before + ArchitectureLines(RowsOf(rows, a), a, fmt) + behind
  {
    hide Architectures, ArchitectureLines, RowsOf, Intro, Concat;
    ArchitectureListed(rows, r);
    var names := Architectures(rows);
    var k :| 0 <= k < |names| && names[k] == ArchitectureOf(r);
    var parts := Parts(rows, names, fmt);
    ConcatAround(parts, k);
    before, behind := Intro(title) + Concat(parts[..k]), Concat(parts[k + 1..]);
  }

  lemma SectionInReport(rows: seq<Row>, title: string, fmt: Format, r: Row)
    returns (before: seq<string>, between: seq<string>, behind: seq<string>)
    requires r in rows && r in SectionRows(SectionFor(r), RowsOf(rows, ArchitectureOf(r)))
    ensures var sec, a := SectionFor(r), ArchitectureOf(r);
            var mine := RowsOf(rows, a);
            ReportLines(rows, title, fmt) ==
              before + ["## Architecture: `" + a + "`"] + between + [Title(sec), ""]
              + TableLines(SectionTable(sec, SectionRows(sec, mine), Backends(mine), fmt)) + behind
    ensures NoHeading(between)
  {
    var sec, a := SectionFor(r), ArchitectureOf(r);
    var mine := RowsOf(rows, a);
    var table := TableLines(SectionTable(sec, SectionRows(sec, mine), Backends(mine), fmt));
    assert SectionLines(sec, mine, Backends(mine), fmt) == [Title(sec), ""] + table;
    hide *;
    var front, rest := ArchitectureInReport(rows, title, fmt, r);
    var middle, back := SectionInArchitecture(sec, mine, a, fmt);
    Nested(front, ["## Architecture: `" + a + "`"], middle, [Title(sec), ""], table, back, rest);
    before, between, behind := front, middle, back + rest;
  }

  lemma Nested(a: seq<string>, b: seq<string>, c: seq<string>, d: seq<string>, e: seq<string>, f: seq<string>, g: seq<string>)
    ensures a + (b + c + (d + e) + f) + g == a + b + c + d + e + (f + g)
  {
  }

  /** Line i of the table begins with the algorithm or cipher, operation and size of r, and the
      j-th cell after them, under the heading of r's backend, shows the median of the rates. */
  predicate ShowsMedian(t: Table, fmt: Format, r: Row, rates: seq<real>, i: nat, j: nat)
    requires PrintedRow(r)
  {
    var keys := |LineStart(r, fmt)|;
    && rates != [] && i < |t.rows| && keys + j < |t.rows[i]| == |t.headings|
    && (var heading, name := t.headings[keys + j], r.backend.value;
        var unit := if r.benchmark == Some("tls-handshake") then " handshakes/s" else " MiB/s";
        && (name == "openssl" ==> heading == "OpenSSL" + unit)
        && (name == "libressl" ==> heading == "LibreSSL baseline" + unit)
        && (name == "libressl-patched" ==> heading == "LibreSSL patched" + unit)
        && (name != "openssl" && name != "libressl" && name != "libressl-patched" ==> heading == name + unit))
    && t.headings[..keys] == (if r.algorithm.Some? then ["Algorithm", "Operation", "Bytes"]
                              else if r.benchmark == Some("tls-handshake") then ["Cipher"] else ["Cipher", "Bytes"])
    && t.rows[i][..keys] == LineStart(r, fmt)
    && t.rows[i][keys + j] == fmt.rate(Median(rates))
  }

  /** The table of the section of r in the part of its architecture. */
  function TableWith(rows: seq<Row>, r: Row, fmt: Format): Table {
    var mine := RowsOf(rows, ArchitectureOf(r));
    SectionTable(SectionFor(r), SectionRows(SectionFor(r), mine), Backends(mine), fmt)
  }

  lemma RowInTable(rows: seq<Row>, fmt: Format, r: Row) returns (i: nat, j: nat)
    requires r in rows && PrintedRow(r)
    ensures ShowsMedian(TableWith(rows, r, fmt), fmt, r, Collect(Like(r), rows), i, j)
  {
    var sec, a := SectionFor(r), ArchitectureOf(r);
    var mine := RowsOf(rows, a);
    var g := GroupOf(sec)(r).value;
    assert PlaceOf()(r) == Some(Place(a, sec, g)) && g == (KeyOf(sec, r).value, r.backend.value);
    RowIsListed(rows, r);
    LikeIsSampled(rows, r);
    LineStartIsKey(r, fmt);
    hide LineStart, UnitOf, KeyHeadings, KeyCells, KeyOf, Unit, Median, SectionTable, SectionRows, Backends, Like, PrintedRow, SectionFor, GroupOf, PlaceOf;
    i, j := SampleIsBehindCell(sec, SectionRows(sec, mine), Backends(mine), fmt, r);
    BackendColumn(sec, Backends(mine), j);
    DisplayNames(r.backend.value);
    HeadingsOfRow(r, Backends(mine));
  }

  /** The title above the table in which r shows. */
  function TitleAbove(r: Row): string {
    if r.algorithm.Some? then "### AEAD primitive throughput"
    else if r.benchmark == Some("tls-handshake") then "### TLS 1.3 full handshake"
    else "### TLS 1.3 application-data throughput"
  }

  lemma HeadingsOfRow(r: Row, backends: seq<string>)
    requires PrintedRow(r)
    ensures var sec := SectionFor(r);
            && UnitOf(r) == (if r.benchmark == Some("tls-handshake") then " handshakes/s" else " MiB/s")
            && |Headings(sec, backends)| >= |KeyHeadings(sec)|
            && Headings(sec, backends)[..|KeyHeadings(sec)|] ==
               (if r.algorithm.Some? then ["Algorithm", "Operation", "Bytes"]
                else if r.benchmark == Some("tls-handshake") then ["Cipher"] else ["Cipher", "Bytes"])
            && Title(sec) == TitleAbove(r)
  {
    HeadingsAre(SectionFor(r), backends);
    hide BackendHeadings, RatioHeadings;
  }

  /** For every row the runners print, the report has the table of its section in the part of
      its architecture, and there the median of all numbers measured like the row. If no line
      break comes in with the rows, the title or the formats, these lines come back out of the
      text of the report; the table is read back from them if and only if no backend of the
      architecture has a pipe in its name. */
  lemma RowIsReported(rows: seq<Row>, title: string, fmt: Format, r: Row)
    returns (before: seq<string>, between: seq<string>, behind: seq<string>, i: nat, j: nat)
    requires r in rows && PrintedRow(r)
    ensures ReportLines(rows, title, fmt) ==
              before + ["## Architecture: `" + r.architecture.value + "`"] + between
              + [TitleAbove(r), ""]
              + TableLines(TableWith(rows, r, fmt)) + behind
    ensures NoHeading(between)
    ensures ShowsMedian(TableWith(rows, r, fmt), fmt, r, Collect(Like(r), rows), i, j)
    ensures TidyRows(rows) && TidyFormat(fmt) && '\n' !in title ==>
              SplitLines(ReportText(rows, title, fmt)) == ReportLines(rows, title, fmt)
    ensures ReadTable(TableLines(TableWith(rows, r, fmt))) == Some(TableWith(rows, r, fmt))
       <==> PipeFree(Backends(RowsOf(rows, ArchitectureOf(r))))
  {
    assert ArchitectureOf(r) == r.architecture.value;
    TableOfRow(rows, r, fmt);
    hide *;
    if TidyRows(rows) && TidyFormat(fmt) && '\n' !in title {
      TidyTextIsReadBack(rows, title, fmt);
    }
    before, between, behind := TableInReport(rows, title, fmt, r);
    i, j := RowInTable(rows, fmt, r);
  }

  lemma TableOfRow(rows: seq<Row>, r: Row, fmt: Format)
    ensures ReadTable(TableLines(TableWith(rows, r, fmt))) == Some(TableWith(rows, r, fmt))
       <==> PipeFree(Backends(RowsOf(rows, ArchitectureOf(r))))
  {
    hide SectionTable, Backends, RowsOf, SectionRows, PipeFree, ReadTable, TableLines;
    var sec, mine := SectionFor(r), RowsOf(rows, ArchitectureOf(r));
    SectionIsReadBackExactlyWhen(sec, SectionRows(sec, mine), Backends(mine), fmt);
  }

  lemma TableInReport(rows: seq<Row>, title: string, fmt: Format, r: Row)
    returns (before: seq<string>, between: seq<string>, behind: seq<string>)
    requires r in rows && PrintedRow(r)
    ensures ReportLines(rows, title, fmt) ==
              before + ["## Architecture: `" + ArchitectureOf(r) + "`"] + between + [TitleAbove(r), ""]
              + TableLines(TableWith(rows, r, fmt)) + behind
    ensures NoHeading(between)
  {
    var sec, mine := SectionFor(r), RowsOf(rows, ArchitectureOf(r));
    assert TableWith(rows, r, fmt) == SectionTable(sec, SectionRows(sec, mine), Backends(mine), fmt);
    hide *;
    HeadingsOfRow(r, Backends(mine));
    RowIsListed(rows, r);
    before, between, behind := SectionInReport(rows, title, fmt, r);
  }

  /** The columns: every backend once, the known ones first in their fixed order, the others
      by name. */
  lemma BackendsAreCanonical(rows: seq<Row>, i: nat, j: nat)
    requires i < j < |Backends(rows)|
    ensures var names := Backends(rows);
            && names[i] != names[j]
            && names[j] != "openssl"
            && (names[j] == "libressl" ==> names[i] == "openssl")
            && (names[j] == "libressl-patched" ==> names[i] == "openssl" || names[i] == "libressl")
            && (names[i] != "openssl" && names[i] != "libressl" && names[i] != "libressl-patched" ==>
                StringBefore(names[i], names[j]))
  {
    var all := Collect(BackendIn(), rows);
    NameOrders();
    SortSorts(BackendLe, Distinct(all));
    var a, b := Backends(rows)[i], Backends(rows)[j];
    assert BackendLe(a, b);
    DistinctElements(all);
    SortKeepsDistinct(BackendLe, Distinct(all));
    assert a != b;
    if BackendRank(a) == 99 {
      StringLeMeans(a, b);
    }
  }
}
