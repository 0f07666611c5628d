/** The file-name codec of the profile scripts: scripts/profile_aead.sh joins five fields with
    double underscores, and CASE_PATTERN of scripts/summarize_profiles.py takes them apart with
    greedy, backtracking groups. */
module ProfileName {
  import opened Prelude

  datatype Case = Case(backend: string, architecture: string, algorithm: string, operation: string, size: string)

  const SEP: string := "__"

  predicate SepAt(s: string, i: nat) { i + 2 <= |s| && s[i] == '_' && s[i + 1] == '_' }

  predicate HasSep(s: string) { exists i :: 0 <= i < |s| && SepAt(s, i) }

  /** `.+`: at least one character, none of them a line break. */
  predicate AnyPlus(s: string) { s != "" && '\n' !in s }

  /** The stem the shell script builds. */
  function Print(c: Case): string {
    c.backend + SEP + c.architecture + SEP + c.algorithm + SEP + c.operation + SEP + c.size
  }

  // ----- what the pattern accepts

  /** The class `\d` and the value `int` gives to its members; it has the ten ASCII digits
      and others in it. */
  datatype DigitClass = DigitClass(has: char -> bool, value: char -> nat) {
    ghost predicate Lawful() {
      && (forall c: char :: '0' <= c <= '9' ==> has(c) && value(c) == c as int - '0' as int)
      && (forall c: char :: has(c) ==> value(c) < 10)
      && !has('_') && !has('\n') && !has('/')
    }
  }

  predicate Digits(s: string, d: DigitClass) {
    s != "" && forall i :: 0 <= i < |s| ==> d.has(s[i])
  }

  predicate IsOperation(s: string) { s == "seal" || s == "open" }

  /** (seal|open)__(\d+)$ on the rest of a name; `$` also matches before a final line break. */
  function MatchTail(s: string, d: DigitClass): Option<(string, string)> {
    if |s| >= 6 && IsOperation(s[..4]) && SepAt(s, 4) then
      var size := s[6..];
      if Digits(size, d) then Some((s[..4], size))
      else if size != "" && size[|size| - 1] == '\n' && Digits(size[..|size| - 1], d)
      then Some((s[..4], size[..|size| - 1]))
      else None
    else None
  }

  /** (?P<algorithm>.+)__ and the tail, trying the longest group of at most n characters first. */
  function MatchAlgorithm(s: string, n: nat, d: DigitClass): Option<(string, string, string)>
    requires n <= |s|
    decreases n
  {
    if n == 0 then None
    else
      var tail := if AnyPlus(s[..n]) && SepAt(s, n) then MatchTail(s[n + 2..], d) else None;
      if tail.Some? then Some((s[..n], tail.value.0, tail.value.1))
      else MatchAlgorithm(s, n - 1, d)
  }

  function MatchArchitecture(s: string, n: nat, d: DigitClass): Option<(string, string, string, string)>
    requires n <= |s|
    decreases n
  {
    if n == 0 then None
    else
      var rest :=
        if AnyPlus(s[..n]) && SepAt(s, n) then MatchAlgorithm(s[n + 2..], |s| - n - 2, d) else None;
      if rest.Some? then Some((s[..n], rest.value.0, rest.value.1, rest.value.2))
      else MatchArchitecture(s, n - 1, d)
  }

  function MatchBackend(s: string, n: nat, d: DigitClass): Option<Case>
    requires n <= |s|
    decreases n
  {
    if n == 0 then None
    else
      var rest :=
        if AnyPlus(s[..n]) && SepAt(s, n) then MatchArchitecture(s[n + 2..], |s| - n - 2, d) else None;
      if rest.Some? then Some(Case(s[..n], rest.value.0, rest.value.1, rest.value.2, rest.value.3))
      else MatchBackend(s, n - 1, d)
  }

  /** CASE_PATTERN.match */
  function Match(s: string, d: DigitClass): Option<Case> { MatchBackend(s, |s|, d) }

  const SUFFIX: string := ".stat.csv"

  /** `parse_case` up to the conversion of the size: the last nine characters are cut off
      whatever they are. */
  function ParseCase(name: string, d: DigitClass): Option<Case> {
    Match(if |name| <= |SUFFIX| then "" else name[..|name| - |SUFFIX|], d)
  }

  // ----- what a match means

  /** A parse of the name, greedy or not. */
  ghost predicate Parses(s: string, c: Case, d: DigitClass) {
    && AnyPlus(c.backend) && AnyPlus(c.architecture) && AnyPlus(c.algorithm)
    && IsOperation(c.operation) && Digits(c.size, d)
    && (s == Print(c) || s == Print(c) + "\n")
  }

  /** c takes at least as much as e at the first group where they differ. */
  predicate Greedier(c: Case, e: Case) {
    if |c.backend| != |e.backend| then |c.backend| > |e.backend|
    else if |c.architecture| != |e.architecture| then |c.architecture| > |e.architecture|
    else |c.algorithm| >= |e.algorithm|
  }

  predicate TailAt(s: string, k: nat, d: DigitClass) {
    0 < k && k + 2 <= |s| && AnyPlus(s[..k]) && SepAt(s, k) && MatchTail(s[k + 2..], d).Some?
  }

  lemma {:induction false} AlgorithmIsLongest(s: string, n: nat, d: DigitClass)
    requires n <= |s|
    ensures var r := MatchAlgorithm(s, n, d);
            && (r.Some? ==>
                var k := |r.value.0|;
                k <= n && TailAt(s, k, d) && r.value.0 == s[..k] && MatchTail(s[k + 2..], d) == Some((r.value.1, r.value.2)))
            && forall k :: 0 < k <= n && TailAt(s, k, d) ==> r.Some? && k <= |r.value.0|
  {
    hide MatchTail;
    if n > 0 {
      AlgorithmIsLongest(s, n - 1, d);
    }
  }

  predicate AlgorithmAt(s: string, k: nat, d: DigitClass) {
    0 < k && k + 2 <= |s| && AnyPlus(s[..k]) && SepAt(s, k) && MatchAlgorithm(s[k + 2..], |s| - k - 2, d).Some?
  }

  lemma {:induction false} ArchitectureIsLongest(s: string, n: nat, d: DigitClass)
    requires n <= |s|
    ensures var r := MatchArchitecture(s, n, d);
            && (r.Some? ==>
                var k := |r.value.0|;
                && k <= n && AlgorithmAt(s, k, d) && r.value.0 == s[..k]
                && MatchAlgorithm(s[k + 2..], |s| - k - 2, d) == Some((r.value.1, r.value.2, r.value.3)))
            && forall k :: 0 < k <= n && AlgorithmAt(s, k, d) ==> r.Some? && k <= |r.value.0|
  {
    hide MatchAlgorithm;
    if n > 0 {
      ArchitectureIsLongest(s, n - 1, d);
    }
  }

  predicate ArchitectureAt(s: string, k: nat, d: DigitClass) {
    0 < k && k + 2 <= |s| && AnyPlus(s[..k]) && SepAt(s, k) && MatchArchitecture(s[k + 2..], |s| - k - 2, d).Some?
  }

  lemma {:induction false} BackendIsLongest(s: string, n: nat, d: DigitClass)
    requires n <= |s|
    ensures var r := MatchBackend(s, n, d);
            && (r.Some? ==>
                var k := |r.value.backend|;
                && k <= n && ArchitectureAt(s, k, d) && r.value.backend == s[..k]
                && MatchArchitecture(s[k + 2..], |s| - k - 2, d)
                   == Some((r.value.architecture, r.value.algorithm, r.value.operation, r.value.size)))
            && forall k :: 0 < k <= n && ArchitectureAt(s, k, d) ==> r.Some? && k <= |r.value.backend|
  {
    hide MatchArchitecture;
    if n > 0 {
      BackendIsLongest(s, n - 1, d);
    }
  }

  /** The tail of a name, with or without a line break at the end. */
  predicate TailOf(s: string, operation: string, size: string, d: DigitClass) {
    && IsOperation(operation) && Digits(size, d)
    && (s == operation + SEP + size || s == operation + SEP + size + "\n")
  }

  lemma TailMeaning(s: string, operation: string, size: string, d: DigitClass)
    requires d.Lawful()
    ensures MatchTail(s, d) == Some((operation, size)) <==> TailOf(s, operation, size, d)
  {
    if TailOf(s, operation, size, d) {
      TailMatches(s, operation, size, d);
    }
    if MatchTail(s, d) == Some((operation, size)) {
      assert s[4..6] == SEP;
      assert s == s[..4] + SEP + s[6..];
      var rest := s[6..];
      assert rest == size || rest == size + [rest[|rest| - 1]];
    }
  }

  lemma TailMatches(s: string, operation: string, size: string, d: DigitClass)
    requires d.Lawful() && TailOf(s, operation, size, d)
    ensures MatchTail(s, d) == Some((operation, size))
  {
    var broken := size + "\n";
    assert broken[|size|] == '\n' && broken[..|size|] == size;
    var rest := if s == operation + SEP + size then size else broken;
    assert s == operation + SEP + rest;
    assert s[..4] == operation && SepAt(s, 4) && s[6..] == rest;
  }

  lemma Cut(s: string, k: nat)
    requires k + 2 <= |s| && SepAt(s, k)
    ensures s == s[..k] + SEP + s[k + 2..]
  {
    assert s[k..k + 2] == SEP;
  }

  lemma BackendPiece(s: string, d: DigitClass) returns (rest: string)
    requires Match(s, d).Some?
    ensures var c := Match(s, d).value;
            && AnyPlus(c.backend) && s == c.backend + SEP + rest
            && MatchArchitecture(rest, |rest|, d) == Some((c.architecture, c.algorithm, c.operation, c.size))
  {
    BackendIsLongest(s, |s|, d);
    hide MatchArchitecture, MatchBackend, AnyPlus;
    var k := |Match(s, d).value.backend|;
    rest := s[k + 2..];
    assert ArchitectureAt(s, k, d);
    Cut(s, k);
  }

  lemma ArchitecturePiece(s: string, d: DigitClass) returns (rest: string)
    requires MatchArchitecture(s, |s|, d).Some?
    ensures var r := MatchArchitecture(s, |s|, d).value;
            && AnyPlus(r.0) && s == r.0 + SEP + rest
            && MatchAlgorithm(rest, |rest|, d) == Some((r.1, r.2, r.3))
  {
    ArchitectureIsLongest(s, |s|, d);
    hide MatchArchitecture, MatchAlgorithm, AnyPlus;
    var k := |MatchArchitecture(s, |s|, d).value.0|;
    rest := s[k + 2..];
    assert AlgorithmAt(s, k, d);
    Cut(s, k);
  }

  lemma AlgorithmPiece(s: string, d: DigitClass) returns (rest: string)
    requires MatchAlgorithm(s, |s|, d).Some?
    ensures var r := MatchAlgorithm(s, |s|, d).value;
            && AnyPlus(r.0) && s == r.0 + SEP + rest && MatchTail(rest, d) == Some((r.1, r.2))
  {
    AlgorithmIsLongest(s, |s|, d);
    hide MatchTail, MatchAlgorithm, AnyPlus;
    var k := |MatchAlgorithm(s, |s|, d).value.0|;
    rest := s[k + 2..];
    assert TailAt(s, k, d);
    Cut(s, k);
  }

  /** What a match returns is a parse of the name. */
  lemma MatchIsParse(s: string, d: DigitClass)
    requires d.Lawful()
    ensures Match(s, d).Some? ==> Parses(s, Match(s, d).value, d)
  {
    hide Match, MatchArchitecture, MatchAlgorithm, MatchTail, AnyPlus, Print;
    if Match(s, d).Some? {
      var c := Match(s, d).value;
      var s1 := BackendPiece(s, d);
      var s2 := ArchitecturePiece(s1, d);
      var s3 := AlgorithmPiece(s2, d);
      TailMeaning(s3, c.operation, c.size, d);
      Reassociate(c, s3);
    }
  }

  lemma Reassociate(c: Case, tail: string)
    ensures c.backend + SEP + (c.architecture + SEP + (c.algorithm + SEP + tail))
         == c.backend + SEP + c.architecture + SEP + c.algorithm + SEP + tail
    ensures tail == c.operation + SEP + c.size ==>
              c.backend + SEP + c.architecture + SEP + c.algorithm + SEP + tail == Print(c)
    ensures tail == c.operation + SEP + c.size + "\n" ==>
              c.backend + SEP + c.architecture + SEP + c.algorithm + SEP + tail == Print(c) + "\n"
  {
  }

  lemma GreedyAlgorithm(g: string, tail: string, d: DigitClass)
    requires AnyPlus(g) && MatchTail(tail, d).Some?
    ensures var s := g + SEP + tail;
            var r := MatchAlgorithm(s, |s|, d);
            r.Some? && |g| <= |r.value.0|
  {
    hide MatchTail;
    var s := g + SEP + tail;
    Prefix(g, tail);
    assert TailAt(s, |g|, d);
    AlgorithmIsLongest(s, |s|, d);
  }

  lemma GreedyArchitecture(a: string, tail: string, d: DigitClass)
    requires AnyPlus(a) && MatchAlgorithm(tail, |tail|, d).Some?
    ensures var s := a + SEP + tail;
            var r := MatchArchitecture(s, |s|, d);
            && r.Some? && |a| <= |r.value.0|
            && (|r.value.0| == |a| ==>
                MatchAlgorithm(tail, |tail|, d) == Some((r.value.1, r.value.2, r.value.3)))
  {
    hide MatchAlgorithm;
    var s := a + SEP + tail;
    Prefix(a, tail);
    assert AlgorithmAt(s, |a|, d);
    ArchitectureIsLongest(s, |s|, d);
  }

  lemma GreedyBackend(b: string, tail: string, d: DigitClass)
    requires AnyPlus(b) && MatchArchitecture(tail, |tail|, d).Some?
    ensures var s := b + SEP + tail;
            var r := MatchBackend(s, |s|, d);
            && r.Some? && |b| <= |r.value.backend|
            && (|r.value.backend| == |b| ==>
                MatchArchitecture(tail, |tail|, d)
                == Some((r.value.architecture, r.value.algorithm, r.value.operation, r.value.size)))
  {
    hide MatchArchitecture;
    var s := b + SEP + tail;
    Prefix(b, tail);
    assert ArchitectureAt(s, |b|, d);
    BackendIsLongest(s, |s|, d);
  }

  /** Any parse of the name means there is a match, and the match is at least as greedy. */
  lemma MatchIsGreediest(s: string, c: Case, d: DigitClass)
    requires d.Lawful() && Parses(s, c, d)
    ensures Match(s, d).Some? && Greedier(Match(s, d).value, c)
  {
    hide MatchTail, MatchAlgorithm, MatchArchitecture, MatchBackend;
    var s3 := if s == Print(c) then c.operation + SEP + c.size else c.operation + SEP + c.size + "\n";
    Reassociate(c, s3);
    assert s == c.backend + SEP + (c.architecture + SEP + (c.algorithm + SEP + s3));
    TailMeaning(s3, c.operation, c.size, d);
    GreedyAlgorithm(c.algorithm, s3, d);
    GreedyArchitecture(c.architecture, c.algorithm + SEP + s3, d);
    GreedyBackend(c.backend, c.architecture + SEP + (c.algorithm + SEP + s3), d);
  }

  lemma Prefix(front: string, rest: string)
    ensures var s := front + SEP + rest;
            s[..|front|] == front && SepAt(s, |front|) && s[|front| + 2..] == rest
  {
  }

  // ----- reading back what was printed

  /** A field that cannot be mistaken for two: "_" and all of it but its last character hold
      no separator. Fields that contain no "__" and do not start with "_" are of this kind. */
  ghost predicate Clean(x: string)
    requires x != ""
  {
    !HasSep("_" + x[..|x| - 1])
  }

  lemma OrdinaryFieldIsClean(x: string)
    requires x != "" && !HasSep(x) && x[0] != '_'
    ensures Clean(x)
  {
    var y := "_" + x[..|x| - 1];
    if HasSep(y) {
      var i :| 0 <= i < |y| && SepAt(y, i);
      assert i > 0;
      assert SepAt(x, i - 1);
    }
  }

  ghost predicate WellFormed(c: Case, d: DigitClass) {
    && c.backend != "" && c.architecture != "" && c.algorithm != ""
    && '\n' !in c.backend && '\n' !in c.architecture && '\n' !in c.algorithm
    && IsOperation(c.operation) && Digits(c.size, d)
  }

  function Head(c: Case): string { c.backend + SEP + c.architecture + SEP + c.algorithm }

  /** Operation and size are always recovered. */
  lemma SameTail(c: Case, e: Case, d: DigitClass)
    requires d.Lawful() && WellFormed(c, d) && Parses(Print(c), e, d)
    ensures e.operation == c.operation && e.size == c.size && Head(e) == Head(c)
  {
    var s := Print(c);
    assert s[|s| - 1] == c.size[|c.size| - 1];
    assert (Print(e) + "\n")[|Print(e)|] == '\n';
    assert s == Print(e);
    var x, y := Head(c) + SEP + c.operation, Head(e) + SEP + e.operation;
    assert x + SEP + c.size == s == y + SEP + e.size;
    SameEnd(x, c.size, y, e.size, d);
    assert x[|Head(c)| + 2..] == c.operation && y[|Head(e)| + 2..] == e.operation;
    assert x[..|Head(c)|] == Head(c) && y[..|Head(e)|] == Head(e);
  }

  lemma SameEnd(x: string, u: string, y: string, v: string, d: DigitClass)
    requires d.Lawful() && Digits(u, d) && Digits(v, d) && x + SEP + u == y + SEP + v
    ensures x == y && u == v
  {
    DigitsAfter(x, u, d);
    DigitsAfter(y, v, d);
    hide Digits;
    assert |x| == |y|;
    var s := x + SEP + u;
    assert s[..|x|] == x && s[..|y|] == y && s[|x| + 2..] == u && s[|y| + 2..] == v;
  }

  /** Behind the last separator there are digits only. */
  lemma DigitsAfter(x: string, u: string, d: DigitClass)
    requires d.Lawful() && Digits(u, d)
    ensures var s := x + SEP + u;
            s[|x| + 1] == '_' && !d.has('_') && forall i :: |x| + 2 <= i < |s| ==> d.has(s[i])
  {
    var s := x + SEP + u;
    assert forall i :: |x| + 2 <= i < |s| ==> s[i] == u[i - |x| - 2];
  }

  /** The positions where the head of a printed name could be cut otherwise. */
  lemma CleanMeans(front: string, x: string, rest: string)
    requires x != ""
    ensures var s := front + SEP + x + rest;
            Clean(x) <==> forall q :: |front| < q && q + 2 <= |front| + 1 + |x| ==> !SepAt(s, q)
  {
    var s, y, from := front + SEP + x + rest, "_" + x[..|x| - 1], |front| + 1;
    assert forall i :: 0 <= i < |y| ==> y[i] == s[from + i];
    if Clean(x) {
      forall q | |front| < q && q + 2 <= |front| + 1 + |x|
        ensures !SepAt(s, q)
      {
        assert SepAt(s, q) ==> SepAt(y, q - from);
      }
    } else {
      var i :| 0 <= i < |y| && SepAt(y, i);
      assert SepAt(s, from + i);
    }
  }

  lemma HeadCuts(c: Case, h: string)
    requires Head(c) == h
    ensures var q1, q2 := |c.backend|, |c.backend| + 2 + |c.architecture|;
            && SepAt(h, q1) && SepAt(h, q2)
            && c.backend == h[..q1] && c.architecture == h[q1 + 2..q2] && c.algorithm == h[q2 + 2..]
            && |h| == q2 + 2 + |c.algorithm|
  {
  }

  /** If both fields are clean, no other parse of the head is greedier. */
  lemma CleanIsGreediest(c: Case, e: Case)
    requires c.architecture != "" && c.algorithm != "" && e.architecture != "" && e.algorithm != ""
    requires Clean(c.architecture) && Clean(c.algorithm)
    requires Head(e) == Head(c) && Greedier(e, c)
    ensures e.backend == c.backend && e.architecture == c.architecture && e.algorithm == c.algorithm
  {
    var h := Head(c);
    HeadCuts(c, h);
    HeadCuts(e, h);
    ArchitectureCuts(c);
    AlgorithmCuts(c);
    hide Clean, Head, SepAt;
    var q1, q2 := |e.backend|, |e.backend| + 2 + |e.architecture|;
    assert SepAt(h, q1) && SepAt(h, q2);
  }

  lemma ArchitectureCuts(c: Case)
    requires c.architecture != ""
    ensures var from := |c.backend|;
            Clean(c.architecture) <==> forall q :: from < q && q + 2 <= from + 1 + |c.architecture| ==> !SepAt(Head(c), q)
  {
    CleanMeans(c.backend, c.architecture, SEP + c.algorithm);
    hide Clean, SepAt;
    assert Head(c) == c.backend + SEP + c.architecture + (SEP + c.algorithm);
  }

  lemma AlgorithmCuts(c: Case)
    requires c.algorithm != ""
    ensures var from := |c.backend| + 2 + |c.architecture|;
            Clean(c.algorithm) <==> forall q :: from < q && q + 2 <= from + 1 + |c.algorithm| ==> !SepAt(Head(c), q)
  {
    CleanMeans(c.backend + SEP + c.architecture, c.algorithm, "");
    hide Clean, SepAt;
    assert Head(c) == (c.backend + SEP + c.architecture) + SEP + c.algorithm + "";
  }

  /** If one of them is not, some other parse is. */
  lemma UncleanAlgorithm(c: Case, d: DigitClass) returns (e: Case)
    requires WellFormed(c, d) && !Clean(c.algorithm)
    ensures WellFormed(e, d) && Print(e) == Print(c) && Greedier(e, c) && !Greedier(c, e)
  {
    var p := |c.backend| + 2 + |c.architecture|;
    AlgorithmCuts(c);
    assert '\n' !in Head(c);
    hide Clean, Print, Digits, SepAt;
    var q :| p < q && q + 2 <= p + 1 + |c.algorithm| && SepAt(Head(c), q);
    e := CutLater(c, q);
    SameHead(c, e);
  }

  /** The same head, with the algorithm beginning behind a later separator. */
  lemma CutLater(c: Case, q: nat) returns (e: Case)
    requires |c.backend| + 2 + |c.architecture| < q && q + 2 < |Head(c)| && SepAt(Head(c), q)
    ensures Head(e) == Head(c) && e.backend == c.backend && e.operation == c.operation && e.size == c.size
    ensures e.architecture == Head(c)[|c.backend| + 2..q] && e.algorithm == Head(c)[q + 2..]
  {
    var h := Head(c);
    HeadCuts(c, h);
    e := c.(architecture := h[|c.backend| + 2..q], algorithm := h[q + 2..]);
    Cut(h, q);
    assert h[..q] == c.backend + SEP + e.architecture;
  }

  lemma UncleanArchitecture(c: Case, d: DigitClass) returns (e: Case)
    requires WellFormed(c, d) && !Clean(c.architecture)
    ensures WellFormed(e, d) && Print(e) == Print(c) && Greedier(e, c) && !Greedier(c, e)
  {
    var h, q := EarlyCut(c);
    var p := |c.backend| + 2 + |c.architecture|;
    e := c.(backend := h[..q], architecture := h[q + 2..p]);
    assert '\n' !in Head(c);
    hide Clean, Print, Digits;
    HeadAround(c, h, q);
    SameHead(c, e);
  }

  lemma EarlyCut(c: Case) returns (h: string, q: nat)
    requires c.architecture != "" && !Clean(c.architecture)
    ensures h == Head(c) && SepAt(h, q)
    ensures |c.backend| < q && q + 2 <= |c.backend| + 1 + |c.architecture|
  {
    h := Head(c);
    ArchitectureCuts(c);
    q :| |c.backend| < q && q + 2 <= |c.backend| + 1 + |c.architecture| && SepAt(h, q);
  }

  lemma HeadAround(c: Case, h: string, q: nat)
    requires h == Head(c) && SepAt(h, q) && q + 2 <= |c.backend| + 2 + |c.architecture|
    ensures h == h[..q] + SEP + h[q + 2..|c.backend| + 2 + |c.architecture|] + SEP + c.algorithm
  {
    var p := |c.backend| + 2 + |c.architecture|;
    Cut(h, q);
    assert h[p..] == SEP + c.algorithm;
    assert h[q + 2..] == h[q + 2..p] + h[p..];
  }

  lemma SameHead(c: Case, e: Case)
    requires Head(c) == Head(e) && c.operation == e.operation && c.size == e.size
    ensures Print(c) == Print(e)
  {
    assert Print(c) == Head(c) + SEP + c.operation + SEP + c.size;
    assert Print(e) == Head(e) + SEP + e.operation + SEP + e.size;
  }

  /** Reading a printed name gives back all five fields if and only if each of them has the
      form the pattern asks for and the architecture and the algorithm are clean. The backend
      may contain separators. */
  lemma PrintThenMatch(c: Case, d: DigitClass)
    requires d.Lawful()
    ensures Match(c.backend + "__" + c.architecture + "__" + c.algorithm + "__" + c.operation + "__" + c.size, d) == Some(c) <==>
            && c.backend != "" && c.architecture != "" && c.algorithm != ""
            && '\n' !in c.backend && '\n' !in c.architecture && '\n' !in c.algorithm
            && (c.operation == "seal" || c.operation == "open") && Digits(c.size, d)
            && Clean(c.architecture) && Clean(c.algorithm)
  {
    if WellFormed(c, d) {
      WellFormedThenMatch(c, d);
    } else {
      MatchIsParse(Print(c), d);
    }
  }

  lemma WellFormedThenMatch(c: Case, d: DigitClass)
    requires d.Lawful() && WellFormed(c, d)
    ensures Match(Print(c), d) == Some(c) <==> Clean(c.architecture) && Clean(c.algorithm)
  {
    assert Parses(Print(c), c, d);
    MatchIsGreediest(Print(c), c, d);
    MatchIsParse(Print(c), d);
    hide Match;
    var m := Match(Print(c), d).value;
    if Clean(c.architecture) && Clean(c.algorithm) {
      SameTail(c, m, d);
      CleanIsGreediest(c, m);
    } else {
      var e;
      if Clean(c.architecture) { e := UncleanAlgorithm(c, d); } else { e := UncleanArchitecture(c, d); }
      MatchIsGreediest(Print(c), e, d);
    }
  }

  /** With an empty field a name may still be read, as another case. */
  lemma EmptyBackendIsRead(d: DigitClass)
    requires d.Lawful()
    ensures var c := Case("", "x__y", "a", "seal", "64");
            Match(Print(c), d).Some? && Match(Print(c), d) != Some(c)
  {
    var c, e := Case("", "x__y", "a", "seal", "64"), Case("__x", "y", "a", "seal", "64");
    assert Print(c) == Print(e);
    assert d.has('6') && d.has('4');
    MatchIsGreediest(Print(c), e, d);
    PrintThenMatch(c, d);
  }

  /** The last component of a path. */
  function FileName(path: string): string {
    if path == "" then ""
    else if path[|path| - 1] == '/' then ""
    else FileName(path[..|path| - 1]) + [path[|path| - 1]]
  }

  lemma {:induction false} FileNameOfPlain(directory: string, name: string)
    requires '/' !in name
    ensures FileName(directory + "/" + name) == name
  {
    var path := directory + "/" + name;
    if name != "" {
      var front := name[..|name| - 1];
      assert path[..|path| - 1] == directory + "/" + front;
      FileNameOfPlain(directory, front);
      assert name == front + [name[|name| - 1]];
    }
  }

  lemma {:induction false} FileNameHasNoSlash(path: string)
    ensures '/' !in FileName(path)
  {
    if path != "" && path[|path| - 1] != '/' {
      FileNameHasNoSlash(path[..|path| - 1]);
    }
  }

  /** Where the shell script puts the counters of a case. */
  function StatPath(directory: string, c: Case): string { directory + "/" + (Print(c) + SUFFIX) }

  /** The file the shell script writes is read back if and only if backend and architecture are
      not empty and hold neither line breaks nor slashes, and the architecture is clean. */
  lemma StatFileIsReadBack(directory: string, c: Case, d: DigitClass)
    requires d.Lawful() && c.algorithm == "aes-128-gcm" && (c.operation == "seal" || c.operation == "open") && Digits(c.size, d)
    ensures var path := directory + "/" + (c.backend + "__" + c.architecture + "__aes-128-gcm__" + c.operation + "__" + c.size
                        + ".stat.csv");
            ParseCase(FileName(path), d) == Some(c) <==>
            && c.backend != "" && c.architecture != "" && '\n' !in c.backend && '\n' !in c.architecture
            && Clean(c.architecture) && '/' !in c.backend && '/' !in c.architecture
  {
    StatPathIs(directory, c);
    StatPathIsReadBack(directory, c, d);
    hide *;
  }

  lemma StatPathIs(directory: string, c: Case)
    requires c.algorithm == "aes-128-gcm"
    ensures StatPath(directory, c) ==
            directory + "/" + (c.backend + "__" + c.architecture + "__aes-128-gcm__" + c.operation + "__" + c.size + ".stat.csv")
  {
    assert SEP + c.algorithm + SEP == "__aes-128-gcm__";
    Regrouped(c.backend + SEP + c.architecture, SEP, c.algorithm, SEP);
  }

  lemma Regrouped(a: string, b: string, c: string, d: string)
    ensures a + b + c + d == a + (b + c + d)
  {
  }

  lemma StatPathIsReadBack(directory: string, c: Case, d: DigitClass)
    requires d.Lawful() && c.algorithm == "aes-128-gcm" && (c.operation == "seal" || c.operation == "open") && Digits(c.size, d)
    ensures ParseCase(FileName(StatPath(directory, c)), d) == Some(c) <==>
            && c.backend != "" && c.architecture != "" && '\n' !in c.backend && '\n' !in c.architecture
            && Clean(c.architecture) && '/' !in c.backend && '/' !in c.architecture
  {
    OrdinaryFieldIsClean(c.algorithm);
    PrintThenMatch(c, d);
    assert Print(c) == c.backend + "__" + c.architecture + "__" + c.algorithm + "__" + c.operation + "__" + c.size;
    FileNameHasNoSlash(StatPath(directory, c));
    if '/' !in c.backend && '/' !in c.architecture {
      PlainName(directory, c, d);
    }
    hide Match, FileName, StatPath, Print, Clean, Digits, ParseCase, AnyPlus;
    if ParseCase(FileName(StatPath(directory, c)), d) == Some(c) {
      SlashIsGone(FileName(StatPath(directory, c)), c, d);
    }
  }

  lemma PlainName(directory: string, c: Case, d: DigitClass)
    requires d.Lawful() && IsOperation(c.operation) && Digits(c.size, d)
    requires '/' !in c.backend && '/' !in c.architecture && '/' !in c.algorithm
    ensures ParseCase(FileName(StatPath(directory, c)), d) == Match(Print(c), d)
  {
    hide Match, FileName;
    var name := Print(c) + SUFFIX;
    assert '/' !in name;
    FileNameOfPlain(directory, name);
    assert name[..|name| - |SUFFIX|] == Print(c);
  }

  /** A name without slashes is not read as a case with slashes. */
  lemma SlashIsGone(name: string, c: Case, d: DigitClass)
    requires d.Lawful() && '/' !in name && ParseCase(name, d) == Some(c)
    ensures '/' !in c.backend && '/' !in c.architecture
  {
    var stem := if |name| <= |SUFFIX| then "" else name[..|name| - |SUFFIX|];
    MatchIsParse(stem, d);
    assert stem == Print(c) || stem == Print(c) + "\n";
    hide *;
    assert '/' !in stem;
    PrintedSlash(c);
  }

  lemma PrintedSlash(c: Case)
    ensures '/' !in Print(c) ==> '/' !in c.backend && '/' !in c.architecture
  {
  }

  /** A double underscore inside the architecture moves the cut into the backend. */
  lemma SeparatorInArchitecture(d: DigitClass)
    requires d.Lawful()
    ensures var c := Case("openssl", "x86__64", "aes-128-gcm", "seal", "64");
            Match(Print(c), d) != Some(c)
  {
    var c := Case("openssl", "x86__64", "aes-128-gcm", "seal", "64");
    assert d.has('6') && d.has('4');
    var y := "_" + c.architecture[..6];
    assert SepAt(y, 4);
    PrintThenMatch(c, d);
  }

  // ----- printing what was read

  /** `int(size)` */
  function ToInt(s: string, d: DigitClass): nat {
    if s == "" then 0 else 10 * ToInt(s[..|s| - 1], d) + d.value(s[|s| - 1])
  }

  function DigitChar(n: nat): char
    requires n < 10
  {
    '0' + n as char
  }

  /** `str(n)` */
  function Decimal(n: nat): string {
    if n < 10 then [DigitChar(n)] else Decimal(n / 10) + [DigitChar(n % 10)]
  }

  /** Written as `str` writes numbers: ASCII digits without leading zeros. */
  predicate Plain(s: string) {
    && s != "" && (forall i :: 0 <= i < |s| ==> '0' <= s[i] <= '9')
    && (s[0] == '0' ==> |s| == 1)
  }

  lemma {:induction false} DecimalIsPlain(n: nat)
    ensures Plain(Decimal(n)) && (n > 0 ==> Decimal(n)[0] != '0')
  {
    if n >= 10 {
      DecimalIsPlain(n / 10);
    }
  }

  lemma {:induction false} PlainRoundTrip(s: string, d: DigitClass)
    requires d.Lawful() && Plain(s)
    ensures Decimal(ToInt(s, d)) == s
    ensures s[0] != '0' ==> ToInt(s, d) > 0
  {
    var front, last := s[..|s| - 1], s[|s| - 1];
    var v := d.value(last);
    assert v == last as int - '0' as int && v < 10 && DigitChar(v) == last;
    if |s| == 1 {
      assert ToInt(front, d) == 0;
      assert s == [last];
    } else {
      PlainRoundTrip(front, d);
      var n := ToInt(front, d);
      assert (10 * n + v) / 10 == n && (10 * n + v) % 10 == v;
      assert s == front + [last];
    }
  }

  /** Printing a case that was read, with its size converted to a number and back, gives the
      name if and only if the name has no line break at its end and its size is written plainly. */
  lemma MatchThenPrint(s: string, d: DigitClass)
    requires d.Lawful() && Match(s, d).Some?
    ensures var c := Match(s, d).value;
            Print(c.(size := Decimal(ToInt(c.size, d)))) == s <==> s[|s| - 1..] != "\n" && Plain(c.size)
  {
    MatchIsParse(s, d);
    hide Match, MatchBackend;
    var c := Match(s, d).value;
    var front := c.backend + SEP + c.architecture + SEP + c.algorithm + SEP + c.operation + SEP;
    var n := ToInt(c.size, d);
    DecimalIsPlain(n);
    var printed := Print(c.(size := Decimal(n)));
    assert printed == front + Decimal(n) && Print(c) == front + c.size;
    assert printed[|printed| - 1] == Decimal(n)[|Decimal(n)| - 1];
    assert printed[|front|..] == Decimal(n) && Print(c)[|front|..] == c.size;
    assert (Print(c) + "\n")[|Print(c)|] == '\n';
    assert s[|s| - 1..] == [s[|s| - 1]];
    if Plain(c.size) {
      PlainRoundTrip(c.size, d);
    }
  }
}
