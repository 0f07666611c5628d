/** The `long double` arithmetic of the scaling step in src/runner.c and src/tls_main.c, for a
    format of any precision: 53 bits under MSVC, 64 in the x87 format, 113 in binary128. */
module LongDouble {
  import opened Prelude

  function Shifted(m: nat, k: nat): nat { m * Pow2(k) }

  /** How reals are rounded, and to how many significant bits. */
  datatype Format = Format(round: real -> real, precision: nat) {

    predicate Monotone(x: real, y: real) { x <= y ==> round(x) <= round(y) }

    /** A number of at most `precision` significant bits is left alone. */
    predicate Exact(m: nat, k: nat) {
      m <= Pow2(precision) && k <= 192 ==> round(Shifted(m, k) as real) == Shifted(m, k) as real
    }

    predicate Near(x: real) {
      1.0 <= x ==> -x <= Times(round(x) - x, Pow2(precision) as real) <= x
    }

    ghost predicate Lands(n: nat) {
      exists m: nat, k: nat :: IsNumber(m, k) && round(n as real) == Shifted(m, k) as real
    }

    predicate IsNumber(m: nat, k: nat) { m <= Pow2(precision) && k <= 64 }

    /** Any rounding direction will do. */
    ghost predicate IsRounding() {
      precision >= 4 && (forall x, y :: Monotone(x, y)) && (forall m, k :: Exact(m, k))
    }

    /** The result of rounding a 64-bit word is a number of the format. */
    ghost predicate IsOnGrid() { forall n: nat :: n <= U64_MAX ==> Lands(n) }

    /** Rounding is off by at most half a unit in the last place. */
    ghost predicate IsNearest() { IsRounding() && forall x :: Near(x) }
  }

  function Times(x: real, y: real): real { x * y }

  function Over(x: real, y: real): real
    requires y != 0.0
  {
    x / y
  }

  /** Arithmetic without rounding is one of the formats. */
  lemma ExactArithmeticIsNearest(precision: nat)
    requires precision >= 4
    ensures Format(x => x, precision).IsNearest()
    ensures precision >= 64 ==> Format(x => x, precision).IsOnGrid()
  {
    var fp := Format(x => x, precision);
    forall x
      ensures fp.Near(x)
    {
      assert fp.round(x) - x == 0.0;
      assert Times(0.0, Pow2(precision) as real) == 0.0;
    }
    if precision >= 64 {
      Pow2Of63And64();
      Pow2Monotone(64, precision);
      forall n: nat | n <= U64_MAX
        ensures fp.Lands(n)
      {
        assert fp.IsNumber(n, 0) && Shifted(n, 0) == n;
      }
    }
  }

  // ----- real arithmetic

  lemma ProductOrder(x: real, y: real, b: real)
    requires b > 0.0
    ensures x < y ==> x * b < y * b
  {
  }

  lemma ProductOfNonNegatives(x: real, y: real)
    requires x >= 0.0 && y >= 0.0
    ensures x * y >= 0.0
  {
  }

  lemma RealProductLe(x: real, a: real, b: real)
    requires x >= 0.0 && a <= b
    ensures x * a <= x * b
  {
    ProductOfNonNegatives(x, b - a);
  }

  lemma DivGe(a: real, b: real, c: real)
    requires b > 0.0 && a >= c * b
    ensures a / b >= c
  {
    ProductOrder(a / b, c, b);
  }

  lemma DivLe(a: real, b: real, c: real)
    requires b > 0.0 && a <= c * b
    ensures a / b <= c
  {
    ProductOrder(c, a / b, b);
  }

  lemma ProductAsReal(a: nat, b: nat)
    ensures (a * b) as real == a as real * b as real
  {
  }

  lemma ProductLe(c: nat, a: nat, b: nat)
    requires a <= b
    ensures a * c <= b * c && c * a <= c * b
  {
  }

  // ----- rounding of words

  lemma RoundKeeps(fp: Format, m: nat)
    requires fp.IsRounding() && m <= Pow2(fp.precision)
    ensures fp.round(m as real) == m as real
  {
    assert fp.Exact(m, 0);
    assert Shifted(m, 0) == m;
  }

  lemma RoundKeepsPow2(fp: Format, e: nat)
    requires fp.IsRounding() && e <= 64
    ensures fp.round(Pow2(e) as real) == Pow2(e) as real
  {
    assert fp.Exact(1, e);
    assert Shifted(1, e) == Pow2(e);
  }

  lemma RoundPositive(fp: Format, n: nat)
    requires fp.IsRounding() && n > 0
    ensures fp.round(n as real) >= 1.0
  {
    RoundKeepsPow2(fp, 0);
    assert fp.Monotone(1.0, n as real);
  }

  /** The largest word rounds to no more than 2^64, and to no less than 2^63. */
  lemma RoundedLargestWord(fp: Format)
    requires fp.IsRounding()
    ensures 9223372036854775808.0 <= fp.round(U64_MAX as real) <= 18446744073709551616.0
  {
    Pow2Of63And64();
    RoundKeepsPow2(fp, 63);
    RoundKeepsPow2(fp, 64);
    assert fp.Monotone(Pow2(63) as real, U64_MAX as real) && fp.Monotone(U64_MAX as real, Pow2(64) as real);
  }

  lemma RoundAtMost(fp: Format, x: real, m: nat, k: nat)
    requires fp.IsRounding() && m <= Pow2(fp.precision) && k <= 192 && x <= Shifted(m, k) as real
    ensures fp.round(x) <= Shifted(m, k) as real
  {
    assert fp.Exact(m, k) && fp.Monotone(x, Shifted(m, k) as real);
  }

  lemma RoundAtLeast(fp: Format, x: real, m: nat, k: nat)
    requires fp.IsRounding() && m <= Pow2(fp.precision) && k <= 192 && x >= Shifted(m, k) as real
    ensures fp.round(x) >= Shifted(m, k) as real
  {
    assert fp.Exact(m, k) && fp.Monotone(Shifted(m, k) as real, x);
  }

  /** Every word lies between two neighbouring numbers of the format. */
  lemma {:induction false} Bracket(p: nat, x: nat) returns (m: nat, k: nat)
    requires p >= 4 && x >= 1
    ensures Shifted(m, k) <= x < Shifted(m + 1, k)
    ensures 1 <= m && m + 1 <= Pow2(p)
    ensures x < 8 ==> m == x && k == 0
    ensures x >= 8 ==> m >= 8
    ensures x <= U64_MAX ==> k <= 63
  {
    Pow2Monotone(4, p);
    assert Pow2(4) == 16;
    if x < Pow2(p) {
      m, k := x, 0;
      assert Shifted(m, 0) == m && Shifted(m + 1, 0) == m + 1;
    } else {
      assert Pow2(p) == 2 * Pow2(p - 1);
      Pow2Monotone(3, p - 1);
      assert Pow2(3) == 8;
      var k': nat;
      m, k' := Bracket(p, x / 2);
      k := k' + 1;
      Doubled(m, k');
      Doubled(m + 1, k');
    }
    if x <= U64_MAX {
      ProductLe(Pow2(k), 1, m);
      Pow2Fits(k);
    }
  }

  lemma Doubled(m: nat, k: nat)
    ensures Shifted(m, k + 1) == 2 * Shifted(m, k)
  {
  }

  lemma ShiftedTwice(m: nat, k: nat, e: nat)
    ensures Shifted(m, k + e) == Pow2(e) * Shifted(m, k)
  {
    Pow2Add(k, e);
    Rotate(m, Pow2(k), Pow2(e));
  }

  lemma Rotate(a: nat, b: nat, c: nat)
    ensures a * (b * c) == c * (a * b)
  {
  }

  // ----- the scaled count

  /** count * target / elapsed as the C expression evaluates it, every step rounded. */
  function Scaled(fp: Format, count: u64, target: u64, elapsed: u64): real
    requires fp.IsRounding() && elapsed != 0
  {
    RoundPositive(fp, elapsed);
    fp.round(Over(fp.round(Times(fp.round(count as real), fp.round(target as real))), fp.round(elapsed as real)))
  }

  lemma ScaledNonNegative(fp: Format, count: u64, target: u64, elapsed: u64)
    requires fp.IsRounding() && elapsed != 0
    ensures Scaled(fp, count, target, elapsed) >= 0.0
  {
    RoundPositive(fp, elapsed);
    RoundKeeps(fp, 0);
    assert fp.Monotone(0.0, count as real) && fp.Monotone(0.0, target as real);
    var product := Times(fp.round(count as real), fp.round(target as real));
    ProductOfNonNegatives(fp.round(count as real), fp.round(target as real));
    assert fp.Monotone(0.0, product);
    DivGe(fp.round(product), fp.round(elapsed as real), 0.0);
    assert fp.Monotone(0.0, Over(fp.round(product), fp.round(elapsed as real)));
  }

  /** A number above the rounded target and one below the rounded time bound the result. */
  lemma ScaledAtMost(fp: Format, e: nat, target: u64, elapsed: u64, mt: nat, kt: nat, bottom: nat, mr: nat, kr: nat)
    requires fp.IsRounding() && elapsed != 0 && e <= 63 && Pow2(e) <= U64_MAX
    requires mt <= Pow2(fp.precision) && kt + e <= 192 && mr <= Pow2(fp.precision) && kr <= 192
    requires fp.round(target as real) <= Shifted(mt, kt) as real
    requires 0 < bottom && bottom as real <= fp.round(elapsed as real)
    requires Pow2(e) * Shifted(mt, kt) <= Shifted(mr, kr) * bottom
    ensures Scaled(fp, Pow2(e), target, elapsed) <= Shifted(mr, kr) as real
  {
    hide Shifted, Pow2, Times, Over;
    RoundKeepsPow2(fp, e);
    ShiftedTwice(mt, kt, e);
    var rt, re := fp.round(target as real), fp.round(elapsed as real);
    TimesAtMost(Pow2(e), rt, Shifted(mt, kt));
    var product := fp.round(Times(Pow2(e) as real, rt));
    RoundAtMost(fp, Times(Pow2(e) as real, rt), mt, kt + e);
    OverAtMost(product, re, Shifted(mr, kr), bottom);
    RoundAtMost(fp, Over(product, re), mr, kr);
  }

  lemma TimesAtMost(c: nat, x: real, y: nat)
    requires x <= y as real
    ensures Times(c as real, x) <= (c * y) as real
  {
    RealProductLe(c as real, x, y as real);
    ProductAsReal(c, y);
  }

  lemma TimesAtLeast(c: nat, x: real, y: nat)
    requires x >= y as real
    ensures Times(c as real, x) >= (c * y) as real
  {
    RealProductLe(c as real, y as real, x);
    ProductAsReal(c, y);
  }

  lemma OverAtMost(x: real, y: real, most: nat, bottom: nat)
    requires 0 < bottom && bottom as real <= y && x <= (most * bottom) as real
    ensures Over(x, y) <= most as real
  {
    ProductAsReal(most, bottom);
    RealProductLe(most as real, bottom as real, y);
    DivLe(x, y, most as real);
  }

  lemma OverAtLeast(x: real, y: real, least: nat, bottom: nat)
    requires 0.0 < y <= bottom as real && x >= (least * bottom) as real
    ensures Over(x, y) >= least as real
  {
    ProductAsReal(least, bottom);
    RealProductLe(least as real, y, bottom as real);
    DivGe(x, y, least as real);
  }

  predicate Outweighs(a: nat, b: nat, c: nat, d: nat) { a * b >= c * d }

  lemma ScaledAtLeast(fp: Format, e: nat, target: u64, elapsed: u64, mt: nat, kt: nat, bottom: nat, mr: nat, kr: nat)
    requires fp.IsRounding() && elapsed != 0 && e <= 63 && Pow2(e) <= U64_MAX
    requires mt <= Pow2(fp.precision) && kt + e <= 192 && mr <= Pow2(fp.precision) && kr <= 192
    requires fp.round(target as real) >= Shifted(mt, kt) as real
    requires bottom as real >= fp.round(elapsed as real)
    requires Outweighs(Pow2(e), Shifted(mt, kt), Shifted(mr, kr), bottom)
    ensures Scaled(fp, Pow2(e), target, elapsed) >= Shifted(mr, kr) as real
  {
    hide Shifted, Pow2, Times, Over;
    RoundKeepsPow2(fp, e);
    RoundPositive(fp, elapsed);
    ShiftedTwice(mt, kt, e);
    var rt, re := fp.round(target as real), fp.round(elapsed as real);
    TimesAtLeast(Pow2(e), rt, Shifted(mt, kt));
    var product := fp.round(Times(Pow2(e) as real, rt));
    RoundAtLeast(fp, Times(Pow2(e) as real, rt), mt, kt + e);
    OverAtLeast(product, re, Shifted(mr, kr), bottom);
    RoundAtLeast(fp, Over(product, re), mr, kr);
  }

  /** Numbers of the format around the target and the elapsed time, no more than fifteen apart. */
  lemma FifteenfoldBounds(p: nat, e: nat, target: u64, elapsed: u64) returns (mt: nat, kt: nat, m: nat, k: nat)
    requires p >= 4 && elapsed >= 1 && elapsed >= target / 8
    ensures mt <= Pow2(p) && kt <= 66 && m <= Pow2(p) && k <= 63
    ensures target <= Shifted(mt, kt) && 0 < Shifted(m, k) <= elapsed
    ensures Pow2(e) * Shifted(mt, kt) <= Shifted(15, e) * Shifted(m, k)
  {
    Pow2Monotone(4, p);
    assert Pow2(4) == 16;
    m, k := Bracket(p, elapsed);
    mt, kt := if elapsed == 1 then 15 else m + 1, if elapsed == 1 then 0 else k + 3;
    hide Pow2, Shifted;
    TopFor(elapsed, target, m, k, mt, kt);
    BottomPositive(m, k);
    Fifteenfold(e, Shifted(mt, kt), Shifted(m, k));
  }

  lemma Fifteenfold(e: nat, top: nat, bottom: nat)
    requires top <= 15 * bottom
    ensures Pow2(e) * top <= Shifted(15, e) * bottom
  {
    ProductLe(Pow2(e), top, 15 * bottom);
    Fifteen(Pow2(e), bottom);
  }

  /** A sample of at least an eighth of the target scales the count by at most fifteen. */
  lemma AtMostFifteenfold(fp: Format, e: nat, target: u64, elapsed: u64)
    requires fp.IsRounding() && e <= 63 && Pow2(e) <= U64_MAX && elapsed >= 1 && elapsed >= target / 8
    ensures Scaled(fp, Pow2(e), target, elapsed) <= (15 * Pow2(e)) as real
  {
    Pow2Monotone(4, fp.precision);
    assert Pow2(4) == 16 && Shifted(15, e) == 15 * Pow2(e);
    hide Pow2, Shifted, Scaled;
    var mt, kt, m, k := FifteenfoldBounds(fp.precision, e, target, elapsed);
    RoundAtLeast(fp, elapsed as real, m, k);
    RoundAtMost(fp, target as real, mt, kt);
    ScaledAtMost(fp, e, target, elapsed, mt, kt, Shifted(m, k), 15, e);
  }

  lemma BottomPositive(m: nat, k: nat)
    requires m >= 1
    ensures Shifted(m, k) >= 1
  {
    ProductLe(Pow2(k), 1, m);
  }

  lemma Fifteen(c: nat, b: nat)
    ensures c * (15 * b) == (15 * c) * b
  {
  }

  lemma TopFor(elapsed: nat, target: nat, m: nat, k: nat, mt: nat, kt: nat)
    requires elapsed >= 1 && elapsed >= target / 8 && elapsed < Shifted(m + 1, k) && 1 <= m
    requires elapsed < 8 ==> m == elapsed && k == 0
    requires elapsed >= 8 ==> m >= 8
    requires if elapsed == 1 then mt == 15 && kt == 0 else mt == m + 1 && kt == k + 3
    ensures target <= Shifted(mt, kt) <= 15 * Shifted(m, k)
  {
    assert target <= 8 * elapsed + 7;
    if elapsed == 1 {
      assert Shifted(15, 0) == 15 && Shifted(1, 0) == 1;
    } else {
      EightShifted(m + 1, k);
      EightTimes(m, Pow2(k));
    }
  }

  lemma EightTimes(m: nat, q: nat)
    requires m >= 2
    ensures 8 * ((m + 1) * q) <= 15 * (m * q)
  {
    ProductLe(q, 8 * (m + 1), 15 * m);
    assert 8 * ((m + 1) * q) == (8 * (m + 1)) * q && 15 * (m * q) == (15 * m) * q;
  }

  lemma EighthBounds(p: nat, target: u64, elapsed: u64) returns (m: nat, k: nat)
    requires p >= 4 && 0 < elapsed < target / 8
    ensures m + 1 <= Pow2(p) && k <= 63
    ensures Shifted(m, k + 3) <= target && elapsed <= Shifted(m + 1, k)
    ensures Outweighs(Pow2(63), Shifted(m, k + 3), Shifted(1, 64), Shifted(m + 1, k))
  {
    hide Pow2, Shifted;
    m, k := Bracket(p, elapsed);
    EightShifted(m, k);
    BigQuotient(m, k);
  }

  lemma ScaledPast64Bits(fp: Format, target: u64, elapsed: u64)
    requires fp.IsRounding() && 0 < elapsed < target / 8 && Pow2(63) <= U64_MAX
    ensures Scaled(fp, Pow2(63), target, elapsed) >= Shifted(1, 64) as real
  {
    Pow2Monotone(4, fp.precision);
    assert Pow2(4) == 16;
    assert fp.precision >= 4;
    hide *;
    var m, k := EighthBounds(fp.precision, target, elapsed);
    ScaledPastBounds(fp, target, elapsed, m, k);
  }

  lemma ScaledPastBounds(fp: Format, target: u64, elapsed: u64, m: nat, k: nat)
    requires fp.IsRounding() && elapsed > 0 && Pow2(63) <= U64_MAX && 1 <= Pow2(fp.precision)
    requires m + 1 <= Pow2(fp.precision) && k <= 63
    requires Shifted(m, k + 3) <= target && elapsed <= Shifted(m + 1, k)
    requires Outweighs(Pow2(63), Shifted(m, k + 3), Shifted(1, 64), Shifted(m + 1, k))
    ensures Scaled(fp, Pow2(63), target, elapsed) >= Shifted(1, 64) as real
  {
    hide *;
    RoundAtMost(fp, elapsed as real, m + 1, k);
    RoundAtLeast(fp, target as real, m, k + 3);
    ScaledAtLeast(fp, 63, target, elapsed, m, k + 3, Shifted(m + 1, k), 1, 64);
  }

  /** A sample of less than an eighth of the target, of 2^63 iterations, scales past any word. */
  lemma PastAnyWord(fp: Format, target: u64, elapsed: u64)
    requires fp.IsRounding() && 0 < elapsed < target / 8 && Pow2(63) <= U64_MAX
    ensures Scaled(fp, Pow2(63), target, elapsed) >= fp.round(U64_MAX as real)
  {
    hide Scaled;
    ScaledPast64Bits(fp, target, elapsed);
    Pow2Of63And64();
    RoundedLargestWord(fp);
  }

  lemma EightShifted(m: nat, k: nat)
    ensures Shifted(m, k + 3) == 8 * Shifted(m, k)
  {
    Doubled(m, k);
    Doubled(m, k + 1);
    Doubled(m, k + 2);
  }

  lemma BigQuotient(m: nat, k: nat)
    requires m >= 1
    ensures Outweighs(Pow2(63), Shifted(m, k + 3), Shifted(1, 64), Shifted(m + 1, k))
  {
    EightShifted(m, k);
    FourTimes(m, Pow2(k));
    var b := Shifted(m, k);
    assert Shifted(1, 64) == 2 * Pow2(63);
    ProductLe(2 * Pow2(63), Shifted(m + 1, k), 4 * b);
    Rearranged(Pow2(63), b);
  }

  lemma Rearranged(c: nat, b: nat)
    ensures c * (8 * b) == (2 * c) * (4 * b)
  {
  }

  lemma FourTimes(m: nat, q: nat)
    requires m >= 1
    ensures (m + 1) * q <= 4 * (m * q)
  {
    ProductLe(q, m + 1, 4 * m);
    assert 4 * (m * q) == (4 * m) * q;
  }

  /** If the sample was shorter than the target, the count does not shrink. */
  lemma AtLeastCount(fp: Format, e: nat, target: u64, elapsed: u64)
    requires fp.IsRounding() && e <= 63 && Pow2(e) <= U64_MAX && 0 < elapsed < target && fp.Lands(elapsed)
    ensures Scaled(fp, Pow2(e), target, elapsed) >= Pow2(e) as real
  {
    var m: nat, k: nat :| fp.IsNumber(m, k) && fp.round(elapsed as real) == Shifted(m, k) as real;
    assert fp.Monotone(elapsed as real, target as real);
    assert Shifted(1, e) == Pow2(e);
    ScaledAtLeast(fp, e, target, elapsed, m, k, Shifted(m, k), 1, e);
  }

  lemma SmallWordsLand(fp: Format, n: nat)
    requires fp.IsRounding() && n <= Pow2(fp.precision)
    ensures fp.Lands(n)
  {
    RoundKeeps(fp, n);
    assert fp.IsNumber(n, 0) && Shifted(n, 0) == n;
  }

  // ----- inputs the format can hold: only the division is rounded

  lemma ScaledValue(fp: Format, e: nat, target: u64, elapsed: u64)
    requires fp.IsRounding() && e <= 63 && Pow2(e) <= U64_MAX
    requires target <= Pow2(fp.precision) && 0 < elapsed <= Pow2(fp.precision)
    ensures Scaled(fp, Pow2(e), target, elapsed) == fp.round(Over((Pow2(e) * target) as real, elapsed as real))
  {
    ProductAsReal(Pow2(e), target);
    assert fp.Exact(target, e);
    assert Shifted(target, e) == Pow2(e) * target;
    RoundKeepsPow2(fp, e);
    RoundKeeps(fp, target);
    RoundKeeps(fp, elapsed);
    ScaledProduct(fp, Pow2(e), target, elapsed, (Pow2(e) * target) as real);
  }

  lemma ScaledProduct(fp: Format, count: u64, target: u64, elapsed: u64, p: real)
    requires fp.IsRounding() && elapsed != 0
    requires fp.round(count as real) == count as real && fp.round(target as real) == target as real
    requires fp.round(elapsed as real) == elapsed as real
    requires p == Times(count as real, target as real) == fp.round(p)
    ensures Scaled(fp, count, target, elapsed) == fp.round(Over(p, elapsed as real))
  {
  }

  /** Rounding target/lo does not reach the next integer. */
  lemma RoundedRatio(fp: Format, target: u64, lo: nat)
    requires fp.IsNearest() && 0 < lo <= target < Pow2(fp.precision)
    ensures fp.round(Over(target as real, lo as real)) < (target / lo + 1) as real
  {
    var x := Over(target as real, lo as real);
    DivGe(target as real, lo as real, 1.0);
    assert fp.Near(x);
    assert x * lo as real == target as real;
    DivBounds(target, lo);
    NextInteger(fp.round(x), x, lo, target, target / lo + 1, Pow2(fp.precision) as real);
  }

  lemma NextInteger(r: real, x: real, lo: nat, target: nat, next: nat, big: real)
    requires lo > 0 && x * lo as real == target as real && target + 1 <= next * lo && (target as real) < big
    requires Times(r - x, big) <= x
    ensures r < next as real
  {
    var l := lo as real;
    var d := (r - x) * l;
    assert d * big == Times(r - x, big) * l;
    ProductOrder(x, Times(r - x, big), l);
    ProductOrder(1.0, d, big);
    assert r * l == d + x * l;
    ProductAsReal(next, lo);
    ProductOrder(next as real, r, l);
  }

  lemma DivBounds(a: nat, b: nat)
    requires b > 0
    ensures (a / b) * b <= a < (a / b + 1) * b
  {
  }

  // ----- relative errors: what nearest rounding does to inputs of any size

  /** One and five units in the last place: more than four roundings can add up to. */
  function Slack(fp: Format): (s: real)
    ensures s > 1.0
  {
    1.0 + 5.0 / Pow2(fp.precision) as real
  }

  function Down(fp: Format): real { 1.0 - 1.0 / Pow2(fp.precision) as real }

  function Up(fp: Format): real { 1.0 + 1.0 / Pow2(fp.precision) as real }

  predicate Factors(a: real, b: real) { 0.0 < a < 1.0 < b && a * b <= 1.0 }

  lemma FactorsOf(fp: Format)
    requires fp.precision >= 4
    ensures Factors(Down(fp), Up(fp)) && Down(fp) >= 0.9
    ensures Up(fp) <= Slack(fp) * (Down(fp) * Down(fp) * Down(fp))
    ensures 1.0 <= Slack(fp) * Down(fp)
  {
    Pow2Monotone(4, fp.precision);
    assert Pow2(4) == 16;
    var u := 1.0 / Pow2(fp.precision) as real;
    DivLe(1.0, Pow2(fp.precision) as real, 0.0625);
    assert 5.0 / Pow2(fp.precision) as real == 5.0 * u;
    hide Pow2;
    SmallUnit(u);
  }

  lemma SmallUnit(u: real)
    requires 0.0 < u <= 0.0625
    ensures (1.0 - u) * (1.0 + u) <= 1.0
    ensures 1.0 + u <= (1.0 + 5.0 * u) * ((1.0 - u) * (1.0 - u) * (1.0 - u))
    ensures 1.0 <= (1.0 + 5.0 * u) * (1.0 - u)
  {
    SmallSquare(u);
    SmallCube(u, 1.0 - u);
    RealProductLe(1.0 + 5.0 * u, 1.0 - 3.0 * u, (1.0 - u) * (1.0 - u) * (1.0 - u));
    assert (1.0 + 5.0 * u) * (1.0 - 3.0 * u) == 1.0 + 2.0 * u - 15.0 * (u * u);
  }

  lemma SmallSquare(u: real)
    requires 0.0 < u <= 0.0625
    ensures 0.0 <= u * u <= 0.0625 * u
  {
  }

  lemma SmallCube(u: real, a: real)
    requires 0.0 < u <= 0.0625 && a == 1.0 - u
    ensures a * a * a >= 1.0 - 3.0 * u
  {
    var square := u * u;
    SmallSquare(u);
    assert a * a == 1.0 - 2.0 * u + square;
    RealProductLe(a, 1.0 - 2.0 * u, a * a);
    assert a * (1.0 - 2.0 * u) == 1.0 - 3.0 * u + 2.0 * square;
  }

  /** x is y up to factors between a and b. */
  predicate Between(x: real, y: real, a: real, b: real) { a * y <= x <= b * y }

  lemma RoundBetween(fp: Format, x: real)
    requires fp.IsNearest() && x >= 1.0
    ensures Between(fp.round(x), x, Down(fp), Up(fp))
  {
    assert fp.Near(x);
    ErrorBound(fp.round(x), x, Pow2(fp.precision) as real);
  }

  lemma ErrorBound(r: real, x: real, q: real)
    requires q >= 1.0 && -x <= Times(r - x, q) <= x
    ensures Between(r, x, 1.0 - 1.0 / q, 1.0 + 1.0 / q)
  {
    var u := 1.0 / q;
    assert u * q == 1.0 && u > 0.0;
    RealProductLe(u, -x, Times(r - x, q));
    RealProductLe(u, Times(r - x, q), x);
    assert u * Times(r - x, q) == (r - x) * (u * q);
  }

  /** The product: two factors on either side. */
  lemma ProductBetween(p: real, c: real, rt: real, t: real, a: real, b: real)
    requires Factors(a, b) && c >= 0.0 && Between(rt, t, a, b) && Between(p, c * rt, a, b)
    ensures Between(p, c * t, a * a, b * b)
  {
    RealProductLe(c, a * t, rt);
    RealProductLe(c, rt, b * t);
    RealProductLe(a, c * (a * t), c * rt);
    RealProductLe(b, c * rt, c * (b * t));
    assert a * (c * (a * t)) == a * a * (c * t);
    assert b * (c * (b * t)) == b * b * (c * t);
  }

  /** The quotient, without dividing. */
  lemma QuotientBetween(q: real, p: real, re: real, e: real, y: real, a: real, b: real)
    requires Factors(a, b) && q >= 0.0 && q * re == p && Between(re, e, a, b) && Between(p, y, a * a, b * b)
    ensures a * a * y <= b * (q * e) && a * (q * e) <= b * b * y
  {
    RealProductLe(q, a * e, re);
    RealProductLe(q, re, b * e);
    Associate(q, a, e);
    Associate(a, q, e);
    Associate(q, b, e);
    Associate(b, q, e);
  }

  lemma CancelFactor(c: real, x: real, y: real)
    requires c > 0.0
    ensures c * x <= c * y <==> x <= y
  {
    if x > y {
      ProductOrder(y, x, c);
    } else {
      RealProductLe(c, x, y);
    }
  }

  lemma CubePositive(a: real)
    requires a > 0.0
    ensures a * a > 0.0 && a * a * a > 0.0
  {
    ProductOrder(0.0, a, a);
    ProductOrder(0.0, a * a, a);
  }

  lemma FromBelow(a: real, b: real, slack: real, q: real, s: real, e: real, y: real)
    requires Factors(a, b) && b <= slack * (a * a * a) && e >= 0.0 && s >= 0.0
    requires a * q <= s && a * a * y <= b * (q * e)
    ensures y <= slack * (s * e)
  {
    var se, cube := s * e, a * a * a;
    CubePositive(a);
    ProductOfNonNegatives(s, e);
    RealProductLe(e, a * q, s);
    assert e * (a * q) == a * (q * e);
    RealProductLe(b, a * (q * e), se);
    RealProductLe(a, a * a * y, b * (q * e));
    assert a * (b * (q * e)) == b * (a * (q * e));
    assert cube * y == a * (a * a * y);
    RealProductLe(se, b, slack * cube);
    assert (slack * cube) * se == cube * (slack * se);
    CancelFactor(cube, y, slack * se);
  }

  lemma FromAbove(a: real, b: real, slack: real, q: real, s: real, e: real, y: real)
    requires Factors(a, b) && b <= slack * (a * a * a) && e >= 0.0 && y >= 0.0
    requires s <= b * q && a * (q * e) <= b * b * y
    ensures s * e <= slack * y
  {
    var se, cube, z := s * e, a * a * a, b * y;
    CubePositive(a);
    ProductOfNonNegatives(b, y);
    RealProductLe(e, s, b * q);
    assert e * (b * q) == b * (q * e);
    RealProductLe(a, se, b * (q * e));
    assert a * (b * (q * e)) == b * (a * (q * e));
    RealProductLe(b, a * (q * e), b * b * y);
    assert b * (b * b * y) == b * b * z;
    AtMostOnce(a, b, a * se, z);
    RealProductLe(y, b, slack * cube);
    Associate(a * a, a, se);
    Associate(cube, slack, y);
    CancelFactor(cube, se, slack * y);
  }

  lemma Associate(a: real, b: real, c: real)
    ensures a * (b * c) == a * b * c == b * a * c
  {
  }

  /** Two factors down and two up do not increase a number. */
  lemma AtMostOnce(a: real, b: real, x: real, y: real)
    requires Factors(a, b) && x <= b * b * y && y >= 0.0
    ensures a * a * x <= y
  {
    var p := a * b;
    ProductOfNonNegatives(a, b);
    RealProductLe(a, x, b * b * y);
    Associate(a, b, b * y);
    Associate(b, b, y);
    assert a * x <= p * (b * y);
    RealProductLe(b * y, p, 1.0) by { ProductOfNonNegatives(b, y); }
    RealProductLe(a, a * x, b * y) by { assert p * (b * y) <= b * y; }
    Associate(a, b, y);
    Associate(a, a, x);
    RealProductLe(y, p, 1.0);
  }

  predicate Covers(a: real, b: real, slack: real) { Factors(a, b) && b <= slack * (a * a * a) && slack > 1.0 }

  /** The rounded count s against the true quotient y / elapsed, as one product against another. */
  predicate IsRelative(s: real, y: real, elapsed: real, slack: real) {
    && (s <= 1.0 || s * elapsed <= slack * y)
    && (y <= slack * (s * elapsed) || y <= slack * elapsed)
  }

  lemma ScaledRelative(fp: Format, e: nat, target: u64, elapsed: u64)
    requires fp.IsNearest() && e <= 63 && Pow2(e) <= U64_MAX && 0 < elapsed && 0 < target
    ensures IsRelative(Scaled(fp, Pow2(e), target, elapsed), Times(Pow2(e) as real, target as real), elapsed as real, Slack(fp))
  {
    FactorsOf(fp);
    assert Covers(Down(fp), Up(fp), Slack(fp));
    hide *;
    var c, t, el := Pow2(e) as real, target as real, elapsed as real;
    RoundPositive(fp, target);
    RoundPositive(fp, elapsed);
    var rt, re := fp.round(t), fp.round(el);
    var p := fp.round(Times(c, rt));
    var q := Over(p, re);
    ScaledIs(fp, e, target, elapsed);
    RoundBetween(fp, t);
    RoundBetween(fp, el);
    AtLeastOne(c, rt);
    RoundBetween(fp, Times(c, rt));
    QuotientRounded(fp, Times(c, rt), p, re, q);
    Relative(Down(fp), Up(fp), Slack(fp), c, t, el, rt, re, p, q, fp.round(q));
  }

  lemma ScaledIs(fp: Format, e: nat, target: u64, elapsed: u64)
    requires fp.IsRounding() && e <= 63 && Pow2(e) <= U64_MAX && 0 < elapsed
    ensures fp.round(elapsed as real) != 0.0
    ensures Scaled(fp, Pow2(e), target, elapsed)
         == fp.round(Over(fp.round(Times(Pow2(e) as real, fp.round(target as real))), fp.round(elapsed as real)))
  {
    RoundKeepsPow2(fp, e);
    RoundPositive(fp, elapsed);
  }

  lemma AtLeastOne(c: real, x: real)
    requires c >= 1.0 && x >= 1.0
    ensures Times(c, x) >= 1.0
  {
    RealProductLe(c, 1.0, x);
  }

  /** Rounding the quotient: never far off, and not above one from below. */
  predicate Rounded(s: real, q: real, a: real, b: real) { if q >= 1.0 then Between(s, q, a, b) else s <= 1.0 }

  lemma QuotientRounded(fp: Format, x: real, p: real, re: real, q: real)
    requires fp.IsNearest() && x >= 1.0 && p == fp.round(x) && re >= 1.0 && q == Over(p, re)
    ensures q >= 0.0 && Times(q, re) == p
    ensures Rounded(fp.round(q), q, Down(fp), Up(fp))
  {
    RoundKeepsPow2(fp, 0);
    assert fp.Monotone(1.0, x) && fp.Monotone(q, 1.0);
    DivGe(p, re, 0.0);
    hide Down, Up, Between;
    if q >= 1.0 {
      RoundBetween(fp, q);
    }
  }

  lemma Relative(a: real, b: real, slack: real, c: real, t: real, e: real, rt: real, re: real, p: real, q: real, s: real)
    requires Covers(a, b, slack) && c >= 1.0 && t >= 1.0 && e >= 1.0 && q >= 0.0 && Times(q, re) == p
    requires Between(rt, t, a, b) && Between(re, e, a, b) && Between(p, Times(c, rt), a, b) && Rounded(s, q, a, b)
    ensures IsRelative(s, Times(c, t), e, slack)
  {
    var y := c * t;
    ProductOfNonNegatives(c, t);
    ProductBetween(p, c, rt, t, a, b);
    QuotientBetween(q, p, re, e, y, a, b);
    if q >= 1.0 {
      ProductOfNonNegatives(a, q);
      FromBelow(a, b, slack, q, s, e, y);
      FromAbove(a, b, slack, q, s, e, y);
    } else {
      FromBelow(a, b, slack, q, 1.0, e, y);
    }
  }

  // ----- a format that cannot hold 2^p + 1

  /** Rounds the interval from 2^p to 2^p + 1 down, and nothing else. */
  function Coarse(p: nat): Format {
    Format(x => if Pow2(p) as real <= x <= Pow2(p) as real + 1.0 then Pow2(p) as real else x, p)
  }

  lemma CoarseIsNearest(p: nat)
    requires p >= 4
    ensures Coarse(p).IsNearest()
  {
    var fp := Coarse(p);
    forall x
      ensures fp.Near(x)
    {
      CoarseIsNear(p, x);
    }
    forall m, k
      ensures fp.Exact(m, k)
    {
      CoarseIsExact(p, m, k);
    }
  }

  lemma CoarseIsNear(p: nat, x: real)
    ensures Coarse(p).Near(x)
  {
    var q := Pow2(p) as real;
    var down := if q <= x <= q + 1.0 then x - q else 0.0;
    assert Coarse(p).round(x) - x == -down;
    RoundedDown(down, q);
  }

  lemma RoundedDown(down: real, q: real)
    requires 0.0 <= down <= 1.0 && q >= 1.0
    ensures -q <= Times(-down, q) <= 0.0
    ensures down == 0.0 ==> Times(-down, q) == 0.0
  {
    RealProductLe(q, down, 1.0);
    ProductOfNonNegatives(q, down);
    assert -down * q == -(q * down);
  }

  lemma CoarseIsExact(p: nat, m: nat, k: nat)
    requires p >= 4
    ensures Coarse(p).Exact(m, k)
  {
    if k == 0 {
      assert Shifted(m, 0) == m;
    } else {
      Doubled(m, k - 1);
      assert Pow2(p) == 2 * Pow2(p - 1);
      assert Shifted(m, k) != Pow2(p) + 1;
    }
  }

  /** 2^p + 1 is scaled as if it were 2^p. */
  lemma ScaledToPower(p: nat, e: nat, target: u64, elapsed: u64)
    requires 4 <= p <= 63 && e < p && Pow2(e) <= U64_MAX && target == Pow2(p) + 1 && elapsed == Pow2(e)
    ensures Coarse(p).IsRounding() && Scaled(Coarse(p), Pow2(e), target, elapsed) <= Pow2(p) as real
  {
    var fp := Coarse(p);
    CoarseIsNearest(p);
    assert fp.round(target as real) == Pow2(p) as real;
    assert Shifted(1, p) == Pow2(p) && 1 <= Pow2(fp.precision);
    RoundKeepsPow2(fp, e);
    hide Scaled, Coarse, Shifted;
    ScaledAtMost(fp, e, target, elapsed, 1, p, elapsed, 1, p);
  }
}
