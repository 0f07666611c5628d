/** The two forms of `ofb_now_ns` in src/timer.c, in 64-bit arithmetic with its wrap-around. */
module Timer {
  import opened Prelude

  const NS: nat := 1_000_000_000

  function Rest(ticks: nat, frequency: nat): nat
    requires frequency > 0
  {
    ticks % frequency
  }

  /** Performance counter ticks: whole seconds and the remainder are converted separately. */
  function WindowsNs(ticks: nat, frequency: nat): nat
    requires frequency > 0
  {
    Combine(Quotient(ticks, frequency) * NS, Rest(ticks, frequency) * NS, frequency)
  }

  /** seconds + rest / frequency, every operation on 64-bit words. */
  function Combine(seconds: nat, rest: nat, frequency: nat): nat
    requires frequency > 0
  {
    (seconds % WORD_RANGE + Quotient(rest % WORD_RANGE, frequency)) % WORD_RANGE
  }

  function PosixNs(seconds: nat, nanoseconds: nat): nat {
    (seconds * NS % WORD_RANGE + nanoseconds) % WORD_RANGE
  }

  /** The true time of a tick count, in whole nanoseconds. */
  function TickTime(ticks: nat, frequency: nat): nat
    requires frequency > 0
  {
    ticks * NS / frequency
  }

  lemma DivModParts(a: nat, b: nat)
    requires b > 0
    ensures a == a / b * b + a % b && 0 <= a % b < b
  {
  }

  lemma MultipleSign(k: int, d: int)
    requires d > 0
    ensures (k >= 1 ==> k * d >= d) && (k <= 0 ==> k * d <= 0) && (k <= -1 ==> k * d <= -d)
  {
  }

  lemma QuotientIs(a: nat, b: nat, q: nat, r: nat)
    requires b > 0 && a == q * b + r && r < b
    ensures a / b == q
  {
    DivModParts(a, b);
    MultipleSign(a / b - q, b);
    assert (a / b - q) * b == r - a % b;
  }

  /** Splitting off the whole seconds loses nothing. */
  lemma SplitIsExact(ticks: nat, frequency: nat)
    requires frequency > 0
    ensures TickTime(ticks, frequency) == Quotient(ticks, frequency) * NS + Quotient(Rest(ticks, frequency) * NS, frequency)
  {
    DivModParts(ticks, frequency);
    SplitProduct(ticks, frequency, ticks / frequency, ticks % frequency);
  }

  lemma SplitProduct(ticks: nat, frequency: nat, q: nat, r: nat)
    requires frequency > 0 && ticks == q * frequency + r
    ensures ticks * NS / frequency == q * NS + r * NS / frequency
  {
    var rest := r * NS;
    DivModParts(rest, frequency);
    Regroup(q, frequency, rest / frequency);
    QuotientIs(ticks * NS, frequency, q * NS + rest / frequency, rest % frequency);
  }

  lemma Regroup(q: nat, f: nat, k: nat)
    ensures (q * NS + k) * f == (q * f) * NS + k * f
  {
  }

  lemma WrapIs(x: nat)
    ensures x < WORD_RANGE ==> x % WORD_RANGE == x
    ensures x >= WORD_RANGE ==> x % WORD_RANGE + WORD_RANGE <= x
    ensures x % WORD_RANGE < WORD_RANGE
  {
  }

  lemma LargerByDivisor(x: nat, y: nat, d: nat)
    requires d > 0 && x + d <= y
    ensures Quotient(x, d) < Quotient(y, d)
  {
    DivModParts(x, d);
    DivModParts(y, d);
    MultipleSign(y / d - x / d, d);
    assert (y / d - x / d) * d == (y - y % d) - (x - x % d);
  }

  /** The Windows form is the true time if and only if that time fits 64 bits and the
      remainder does not overflow when it is scaled. */
  lemma WindowsIsExactExactlyWhen(ticks: nat, frequency: nat)
    requires 0 < frequency <= U64_MAX / 2
    ensures WindowsNs(ticks, frequency) == ticks * 1_000_000_000 / frequency
       <==> && ticks * 1_000_000_000 / frequency <= 0xFFFF_FFFF_FFFF_FFFF
            && ticks % frequency * 1_000_000_000 <= 0xFFFF_FFFF_FFFF_FFFF
  {
    ExactWindows(ticks, frequency);
  }

  lemma ExactWindows(ticks: nat, frequency: nat)
    requires 0 < frequency <= U64_MAX / 2
    ensures WindowsNs(ticks, frequency) == TickTime(ticks, frequency)
       <==> TickTime(ticks, frequency) <= U64_MAX && Rest(ticks, frequency) * NS <= U64_MAX
  {
    SplitIsExact(ticks, frequency);
    hide TickTime, Combine, Quotient, Rest;
    WindowsSplit(Quotient(ticks, frequency) * NS, Rest(ticks, frequency) * NS, frequency);
  }

  lemma WindowsSplit(seconds: nat, rest: nat, frequency: nat)
    requires 0 < frequency <= U64_MAX / 2
    ensures Combine(seconds, rest, frequency) == seconds + Quotient(rest, frequency)
       <==> seconds + Quotient(rest, frequency) <= U64_MAX && rest <= U64_MAX
  {
    var wrapped := rest % WORD_RANGE;
    WrapIs(rest);
    if rest > U64_MAX {
      LargerByDivisor(wrapped, rest, frequency);
    }
    hide Quotient;
    SumFits(seconds, Quotient(rest, frequency), Quotient(wrapped, frequency));
  }

  lemma SumFits(seconds: nat, exact: nat, wrapped: nat)
    requires wrapped <= exact
    ensures (seconds % WORD_RANGE + wrapped) % WORD_RANGE == seconds + exact <==> seconds + exact <= U64_MAX && wrapped == exact
  {
    WrapIs(seconds);
    WrapIs(seconds % WORD_RANGE + wrapped);
  }

  /** Later ticks, later true time. */
  lemma TickTimeMonotone(t1: nat, t2: nat, frequency: nat)
    requires frequency > 0 && t1 <= t2
    ensures TickTime(t1, frequency) <= TickTime(t2, frequency)
  {
    var a, b := t1 * NS, t2 * NS;
    DivModParts(a, frequency);
    DivModParts(b, frequency);
    MultipleSign(a / frequency - b / frequency, frequency);
    assert (a / frequency - b / frequency) * frequency == (a - a % frequency) - (b - b % frequency);
  }

  /** Up to the last tick whose time fits 64 bits, later ticks never give an earlier reading. The
      bound on the frequency keeps every scaled remainder within 64 bits. */
  lemma WindowsMonotone(t1: nat, t2: nat, frequency: nat)
    requires 0 < frequency <= 18_446_744_073 && t1 <= t2 && t2 * 1_000_000_000 / frequency <= 0xFFFF_FFFF_FFFF_FFFF
    ensures WindowsNs(t1, frequency) <= WindowsNs(t2, frequency) <= 0xFFFF_FFFF_FFFF_FFFF
  {
    TickTimeMonotone(t1, t2, frequency);
    DivModParts(t1, frequency);
    DivModParts(t2, frequency);
    hide WindowsNs, TickTime;
    ExactWindows(t1, frequency);
    ExactWindows(t2, frequency);
  }

  /** Below the overflow the POSIX form orders readings as the clock does, and the difference
      of two readings is the time between them. */
  lemma PosixEmbedsOrder(s1: nat, n1: nat, s2: nat, n2: nat)
    requires n1 < 1_000_000_000 && n2 < 1_000_000_000
    requires s1 * 1_000_000_000 + n1 <= 0xFFFF_FFFF_FFFF_FFFF && s2 * 1_000_000_000 + n2 <= 0xFFFF_FFFF_FFFF_FFFF
    ensures PosixNs(s1, n1) < PosixNs(s2, n2) <==> s1 < s2 || (s1 == s2 && n1 < n2)
    ensures PosixNs(s2, n2) - PosixNs(s1, n1) == (s2 - s1) * 1_000_000_000 + (n2 - n1)
  {
    WrapIs(s1 * NS);
    WrapIs(s2 * NS);
    WrapIs(s1 * NS + n1);
    WrapIs(s2 * NS + n2);
  }
}
