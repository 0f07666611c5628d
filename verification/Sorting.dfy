/** Sorting, de-duplicating and filtering of lists, and why none of the results depends on
    the order of the input. Used for Python's `sorted`, sets, dictionaries and medians. */
module Sorting {
  import opened Prelude

  ghost predicate TotalOrder<T(!new)>(le: (T, T) -> bool) {
    && (forall x, y :: le(x, y) || le(y, x))
    && (forall x, y :: le(x, y) && le(y, x) ==> x == y)
    && (forall x, y, z :: le(x, y) && le(y, z) ==> le(x, z))
  }

  ghost predicate Sorted<T>(le: (T, T) -> bool, s: seq<T>) {
    forall i, j :: 0 <= i < j < |s| ==> le(s[i], s[j])
  }

  function Insert<T>(le: (T, T) -> bool, x: T, s: seq<T>): seq<T> {
    if s == [] || le(x, s[0]) then [x] + s else [s[0]] + Insert(le, x, s[1..])
  }

  function Sort<T>(le: (T, T) -> bool, s: seq<T>): seq<T> {
    if s == [] then [] else Insert(le, s[0], Sort(le, s[1..]))
  }

  lemma {:induction false} InsertPermutes<T>(le: (T, T) -> bool, x: T, s: seq<T>)
    ensures multiset(Insert(le, x, s)) == multiset{x} + multiset(s)
  {
    if s != [] && !le(x, s[0]) {
      InsertPermutes(le, x, s[1..]);
      assert s == [s[0]] + s[1..];
    }
  }

  lemma {:induction false} SortPermutes<T>(le: (T, T) -> bool, s: seq<T>)
    ensures multiset(Sort(le, s)) == multiset(s) && |Sort(le, s)| == |s|
  {
    if s != [] {
      SortPermutes(le, s[1..]);
      InsertPermutes(le, s[0], Sort(le, s[1..]));
      assert s == [s[0]] + s[1..];
    }
    assert |multiset(Sort(le, s))| == |multiset(s)|;
  }

  lemma SortKeepsMembers<T>(le: (T, T) -> bool, s: seq<T>, x: T)
    ensures x in Sort(le, s) <==> x in s
  {
    SortPermutes(le, s);
    assert x in Sort(le, s) <==> x in multiset(Sort(le, s));
    assert x in s <==> x in multiset(s);
  }

  lemma {:induction false} InsertSorts<T(!new)>(le: (T, T) -> bool, x: T, s: seq<T>)
    requires TotalOrder(le) && Sorted(le, s)
    ensures Sorted(le, Insert(le, x, s))
  {
    if s != [] && !le(x, s[0]) {
      InsertSorts(le, x, s[1..]);
      var rest := Insert(le, x, s[1..]);
      InsertPermutes(le, x, s[1..]);
      forall j | 0 <= j < |rest|
        ensures le(s[0], rest[j])
      {
        assert rest[j] in multiset(rest);
        assert rest[j] == x || rest[j] in s[1..];
      }
    }
  }

  lemma {:induction false} SortSorts<T(!new)>(le: (T, T) -> bool, s: seq<T>)
    requires TotalOrder(le)
    ensures Sorted(le, Sort(le, s))
  {
    if s != [] {
      SortSorts(le, s[1..]);
      InsertSorts(le, s[0], Sort(le, s[1..]));
    }
  }

  /** Under a total order there is one way to sort a multiset. */
  lemma {:induction false} SortedIsUnique<T(!new)>(le: (T, T) -> bool, s: seq<T>, t: seq<T>)
    requires TotalOrder(le) && Sorted(le, s) && Sorted(le, t) && multiset(s) == multiset(t)
    ensures s == t
  {
    assert |s| == |multiset(s)| == |multiset(t)| == |t|;
    if s != [] {
      LeastComesFirst(le, s, t);
      LeastComesFirst(le, t, s);
      assert s[0] == t[0];
      WithoutFirst(s);
      WithoutFirst(t);
      hide TotalOrder;
      SortedIsUnique(le, s[1..], t[1..]);
    }
  }

  lemma WithoutFirst<T>(s: seq<T>)
    requires s != []
    ensures s == [s[0]] + s[1..] && multiset(s[1..]) == multiset(s) - multiset{s[0]}
  {
    assert s == [s[0]] + s[1..];
  }

  lemma LeastComesFirst<T(!new)>(le: (T, T) -> bool, s: seq<T>, t: seq<T>)
    requires TotalOrder(le) && Sorted(le, s) && multiset(s) == multiset(t) && s != [] && t != []
    ensures le(s[0], t[0])
  {
    assert t[0] in multiset(s);
    var i :| 0 <= i < |s| && s[i] == t[0];
  }

  lemma SortDependsOnMultiset<T(!new)>(le: (T, T) -> bool, s: seq<T>, t: seq<T>)
    requires TotalOrder(le) && multiset(s) == multiset(t)
    ensures Sort(le, s) == Sort(le, t)
  {
    SortSorts(le, s);
    SortSorts(le, t);
    SortPermutes(le, s);
    SortPermutes(le, t);
    SortedIsUnique(le, Sort(le, s), Sort(le, t));
  }

  // ----- distinct elements

  /** The different elements in the order they first occur: the keys of a dictionary. */
  function Distinct<T(==)>(s: seq<T>): seq<T> {
    if s == [] then []
    else
      var front := Distinct(s[..|s| - 1]);
      if s[|s| - 1] in front then front else front + [s[|s| - 1]]
  }

  ghost predicate NoRepeats<T>(s: seq<T>) {
    forall i, j :: 0 <= i < j < |s| ==> s[i] != s[j]
  }

  lemma {:induction false} DistinctElements<T>(s: seq<T>)
    ensures NoRepeats(Distinct(s))
    ensures forall x :: x in Distinct(s) <==> x in s
  {
    if s != [] {
      DistinctElements(s[..|s| - 1]);
      assert s == s[..|s| - 1] + [s[|s| - 1]];
    }
  }

  lemma {:induction false} NoRepeatsCount<T>(s: seq<T>, x: T)
    requires NoRepeats(s)
    ensures multiset(s)[x] == if x in s then 1 else 0
  {
    if s != [] {
      var front := s[..|s| - 1];
      assert s == front + [s[|s| - 1]];
      NoRepeatsCount(front, x);
      assert x == s[|s| - 1] ==> x !in front;
    }
  }

  lemma {:induction false} RepeatCounts<T>(s: seq<T>, i: nat, j: nat)
    requires i < j < |s| && s[i] == s[j]
    ensures multiset(s)[s[i]] >= 2
  {
    assert s == s[..j] + s[j..];
    assert s[..j][i] in multiset(s[..j]) && s[j..][0] in multiset(s[j..]);
    assert multiset(s) == multiset(s[..j]) + multiset(s[j..]);
  }

  lemma SortKeepsDistinct<T>(le: (T, T) -> bool, s: seq<T>)
    requires NoRepeats(s)
    ensures NoRepeats(Sort(le, s))
  {
    hide Sort;
    var t := Sort(le, s);
    SortPermutes(le, s);
    forall i, j | 0 <= i < j < |t|
      ensures t[i] != t[j]
    {
      if t[i] == t[j] {
        RepeatCounts(t, i, j);
        NoRepeatsCount(s, t[i]);
      }
    }
  }

  /** Sorting the different elements gives the same list for lists with the same elements. */
  lemma SortDistinctDependsOnSet<T(!new)>(le: (T, T) -> bool, s: seq<T>, t: seq<T>)
    requires TotalOrder(le)
    requires forall x :: x in s <==> x in t
    ensures Sort(le, Distinct(s)) == Sort(le, Distinct(t))
  {
    DistinctElements(s);
    DistinctElements(t);
    forall x
      ensures multiset(Distinct(s))[x] == multiset(Distinct(t))[x]
    {
      NoRepeatsCount(Distinct(s), x);
      NoRepeatsCount(Distinct(t), x);
    }
    assert multiset(Distinct(s)) == multiset(Distinct(t));
    SortDependsOnMultiset(le, Distinct(s), Distinct(t));
  }

  // ----- filtering

  /** [f(x) for x in s if f(x) is not None] */
  function Collect<S, T>(f: S -> Option<T>, s: seq<S>): (r: seq<T>)
    ensures |r| <= |s|
  {
    if s == [] then []
    else Collect(f, s[..|s| - 1]) + match f(s[|s| - 1]) case None => [] case Some(y) => [y]
  }

  lemma {:induction false} CollectAppend<S, T>(f: S -> Option<T>, a: seq<S>, b: seq<S>)
    ensures Collect(f, a + b) == Collect(f, a) + Collect(f, b)
  {
    if b == [] {
      assert a + b == a;
    } else {
      assert (a + b)[..|a + b| - 1] == a + b[..|b| - 1];
      CollectAppend(f, a, b[..|b| - 1]);
    }
  }

  lemma {:induction false} CollectMember<S, T>(f: S -> Option<T>, s: seq<S>, y: T)
    ensures y in Collect(f, s) <==> exists i :: 0 <= i < |s| && f(s[i]) == Some(y)
  {
    if s != [] {
      var front := s[..|s| - 1];
      CollectMember(f, front, y);
      CollectLast(f, s);
      hide Collect;
      if y in Collect(f, front) {
        var i :| 0 <= i < |front| && f(front[i]) == Some(y);
        assert f(s[i]) == Some(y);
      }
      if i :| 0 <= i < |s| && f(s[i]) == Some(y) {
        assert i < |front| ==> f(front[i]) == Some(y);
      }
    }
  }

  lemma CollectLast<S, T>(f: S -> Option<T>, s: seq<S>)
    requires s != []
    ensures Collect(f, s) == Collect(f, s[..|s| - 1]) + match f(s[|s| - 1]) case None => [] case Some(y) => [y]
  {
  }

  lemma CollectAround<S, T>(f: S -> Option<T>, a: seq<S>, x: S, b: seq<S>)
    ensures multiset(Collect(f, a + [x] + b)) == multiset(Collect(f, a + b)) + multiset(Collect(f, [x]))
  {
    hide Collect;
    CollectAppend(f, a + [x], b);
    CollectAppend(f, a, [x]);
    CollectAppend(f, a, b);
  }

  lemma WithoutOne<T>(s: seq<T>, i: nat)
    requires i < |s|
    ensures s == s[..i] + [s[i]] + s[i + 1..]
    ensures multiset(s[..i] + s[i + 1..]) == multiset(s) - multiset{s[i]}
  {
    assert s == s[..i] + [s[i]] + s[i + 1..];
  }

  /** Reordering the input only reorders what is collected. */
  lemma {:induction false} CollectPermutes<S, T>(f: S -> Option<T>, s: seq<S>, t: seq<S>)
    requires multiset(s) == multiset(t)
    ensures multiset(Collect(f, s)) == multiset(Collect(f, t))
  {
    assert |s| == |multiset(s)| == |multiset(t)| == |t|;
    if s != [] {
      hide Collect;
      var x, front := s[|s| - 1], s[..|s| - 1];
      WithoutOne(s, |s| - 1);
      assert front + s[|s|..] == front && front + [x] + s[|s|..] == front + [x] + [];
      assert x in multiset(t);
      var i :| 0 <= i < |t| && t[i] == x;
      WithoutOne(t, i);
      CollectPermutes(f, front, t[..i] + t[i + 1..]);
      CollectAround(f, t[..i], x, t[i + 1..]);
      CollectAround(f, front, x, []);
      assert front + [] == front;
    }
  }

  lemma SameMembers<T>(s: seq<T>, t: seq<T>)
    requires multiset(s) == multiset(t)
    ensures forall x :: x in s <==> x in t
  {
    forall x
      ensures x in s <==> x in t
    {
      assert x in s <==> x in multiset(s);
      assert x in t <==> x in multiset(t);
    }
  }

  // ----- orders

  /** Lexicographic order, as Python compares strings and tuples. */
  predicate LexLe<T(==)>(le: (T, T) -> bool, a: seq<T>, b: seq<T>) {
    a == [] || (b != [] && if a[0] == b[0] then LexLe(le, a[1..], b[1..]) else le(a[0], b[0]))
  }

  lemma {:induction false} LexTotal<T(!new)>(le: (T, T) -> bool, a: seq<T>, b: seq<T>)
    requires TotalOrder(le)
    ensures LexLe(le, a, b) || LexLe(le, b, a)
    ensures LexLe(le, a, b) && LexLe(le, b, a) ==> a == b
  {
    if a != [] && b != [] {
      LexTotal(le, a[1..], b[1..]);
      assert a == [a[0]] + a[1..] && b == [b[0]] + b[1..];
    }
  }

  lemma {:induction false} LexTransitive<T(!new)>(le: (T, T) -> bool, a: seq<T>, b: seq<T>, c: seq<T>)
    requires TotalOrder(le) && LexLe(le, a, b) && LexLe(le, b, c)
    ensures LexLe(le, a, c)
  {
    if a != [] && a[0] == b[0] == c[0] {
      LexTransitive(le, a[1..], b[1..], c[1..]);
    }
  }

  predicate CharLe(a: char, b: char) { a <= b }

  predicate StringLe(a: string, b: string) { LexLe(CharLe, a, b) }

  lemma StringOrder()
    ensures TotalOrder(StringLe)
  {
    assert TotalOrder(CharLe);
    forall a, b
      ensures (StringLe(a, b) || StringLe(b, a)) && (StringLe(a, b) && StringLe(b, a) ==> a == b)
    {
      LexTotal(CharLe, a, b);
    }
    forall a, b, c | StringLe(a, b) && StringLe(b, c)
      ensures StringLe(a, c)
    {
      LexTransitive(CharLe, a, b, c);
    }
  }

  /** Two different sequences in lexicographic order differ first at some n, and there the first
      of them has ended or has the smaller element. */
  lemma {:induction false} LexMeans<T>(le: (T, T) -> bool, a: seq<T>, b: seq<T>) returns (n: nat)
    requires LexLe(le, a, b) && a != b
    ensures n <= |a| && n < |b| && a[..n] == b[..n] && (n == |a| || (a[n] != b[n] && le(a[n], b[n])))
  {
    n := 0;
    if a != [] && a[0] == b[0] {
      assert a == [a[0]] + a[1..] && b == [b[0]] + b[1..];
      var k := LexMeans(le, a[1..], b[1..]);
      n := k + 1;
      assert a[..n] == [a[0]] + a[1..][..k] && b[..n] == [b[0]] + b[1..][..k];
    }
  }

  /** a is a proper prefix of b, or has the smaller character where they first differ. */
  ghost predicate StringBefore(a: string, b: string) {
    exists n: nat :: n <= |a| && n < |b| && a[..n] == b[..n] && (n == |a| || a[n] < b[n])
  }

  lemma StringLeMeans(a: string, b: string)
    requires StringLe(a, b) && a != b
    ensures StringBefore(a, b)
  {
    var n := LexMeans(CharLe, a, b);
  }

  /** Python's sort key (rank(name), name). */
  predicate RankedLe(rank: string -> nat, a: string, b: string) {
    rank(a) < rank(b) || (rank(a) == rank(b) && StringLe(a, b))
  }

  predicate RealLe(a: real, b: real) { a <= b }

  // ----- median

  /** `statistics.median` */
  function Median(s: seq<real>): real
    requires s != []
  {
    SortPermutes(RealLe, s);
    var t, n := Sort(RealLe, s), |s|;
    if n % 2 == 1 then t[n / 2] else (t[n / 2 - 1] + t[n / 2]) / 2.0
  }

  lemma MedianDependsOnMultiset(s: seq<real>, t: seq<real>)
    requires s != [] && multiset(s) == multiset(t)
    ensures t != [] && Median(s) == Median(t)
  {
    assert |s| == |multiset(s)| == |multiset(t)| == |t|;
    SortDependsOnMultiset(RealLe, s, t);
  }

  function Below(m: real): real -> Option<real> { x => if x <= m then Some(x) else None }

  function Above(m: real): real -> Option<real> { x => if x >= m then Some(x) else None }

  lemma {:induction false} CollectAll<S, T>(f: S -> Option<T>, s: seq<S>)
    requires forall i :: 0 <= i < |s| ==> f(s[i]).Some?
    ensures |Collect(f, s)| == |s|
  {
    if s != [] {
      CollectAll(f, s[..|s| - 1]);
    }
  }

  lemma PrefixCollected<T>(f: T -> Option<T>, s: seq<T>, k: nat)
    requires k <= |s| && forall i :: 0 <= i < k ==> f(s[i]).Some?
    ensures |Collect(f, s)| >= k
  {
    assert s == s[..k] + s[k..];
    CollectAppend(f, s[..k], s[k..]);
    CollectAll(f, s[..k]);
  }

  lemma SuffixCollected<T>(f: T -> Option<T>, s: seq<T>, k: nat)
    requires k <= |s| && forall i :: k <= i < |s| ==> f(s[i]).Some?
    ensures |Collect(f, s)| >= |s| - k
  {
    assert s == s[..k] + s[k..];
    CollectAppend(f, s[..k], s[k..]);
    CollectAll(f, s[k..]);
  }

  lemma CollectSameSize<S, T>(f: S -> Option<T>, s: seq<S>, t: seq<S>)
    requires multiset(s) == multiset(t)
    ensures |Collect(f, s)| == |Collect(f, t)|
  {
    CollectPermutes(f, s, t);
    assert |multiset(Collect(f, s))| == |multiset(Collect(f, t))|;
  }

  /** In whatever way the samples are brought into order, the median is the middle one of an odd
      number and the mean of the middle two of an even number. */
  lemma MedianOfSorted(s: seq<real>, t: seq<real>)
    requires s != [] && multiset(s) == multiset(t) && forall i, j :: 0 <= i < j < |t| ==> t[i] <= t[j]
    ensures var n := |s|;
            && |t| == n
            && (n % 2 == 1 ==> Median(s) == t[n / 2])
            && (n % 2 == 0 ==> Median(s) == (t[n / 2 - 1] + t[n / 2]) / 2.0)
  {
    MedianIsMiddle(s);
    SortPermutes(RealLe, s);
    SortSorts(RealLe, s);
    hide Sort, Median;
    assert Sorted(RealLe, t);
    SortedIsUnique(RealLe, Sort(RealLe, s), t);
  }

  /** At least half of the samples are at most the median, and at least half at least. */
  lemma MedianHalves(s: seq<real>)
    requires s != []
    ensures 2 * |Collect(Below(Median(s)), s)| >= |s|
    ensures 2 * |Collect(Above(Median(s)), s)| >= |s|
  {
    var m, t := Median(s), Sort(RealLe, s);
    SortPermutes(RealLe, s);
    MedianInMiddle(s, t);
    CollectSameSize(Below(m), s, t);
    CollectSameSize(Above(m), s, t);
    PrefixCollected(Below(m), t, (|s| + 1) / 2);
    SuffixCollected(Above(m), t, |s| / 2);
  }

  lemma MedianInMiddle(s: seq<real>, t: seq<real>)
    requires s != [] && t == Sort(RealLe, s) && |t| == |s|
    ensures forall i :: 0 <= i < (|s| + 1) / 2 ==> t[i] <= Median(s)
    ensures forall i :: |s| / 2 <= i < |s| ==> t[i] >= Median(s)
  {
    hide Sort, Median;
    var n, mid, m := |s|, |s| / 2, Median(s);
    forall i, j | 0 <= i <= j < n
      ensures t[i] <= t[j]
    {
      SortSorts(RealLe, s);
      assert i < j ==> RealLe(t[i], t[j]);
    }
    if n % 2 == 0 {
      assert m == (t[mid - 1] + t[mid]) / 2.0 by { MedianIsMiddle(s); }
      assert t[mid - 1] <= m <= t[mid];
    } else {
      assert m == t[mid] by { MedianIsMiddle(s); }
    }
  }

  lemma MedianIsMiddle(s: seq<real>)
    requires s != []
    ensures var t, n := Sort(RealLe, s), |s|;
            && |t| == n
            && Median(s) == if n % 2 == 1 then t[n / 2] else (t[n / 2 - 1] + t[n / 2]) / 2.0
  {
    hide Sort;
    SortPermutes(RealLe, s);
  }
}
