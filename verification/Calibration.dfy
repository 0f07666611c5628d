/** Calibration and sampling: `ofb_run_sample` and `ofb_calibrate` of src/runner.c
    and their twins `run_timed` and `calibrate` of src/tls_main.c.

    The clock and the backend are arbitrary: a World fixes every clock reading and the
    outcome of every batch in advance, and nothing relates one reading to the next. */
module Calibration {
  import opened Prelude
  import opened LongDouble

  /** What is timed. A TLS handshake carries no message bytes, so its size is never counted. */
  datatype Workload = Aead(size: u64) | TlsTransfer(size: u64) | TlsHandshake(size: u64)

  function StartCount(w: Workload): u64 {
    match w
    case Aead(_) => 64
    case TlsTransfer(_) => 16
    case TlsHandshake(_) => 1
  }

  function StartExponent(w: Workload): nat {
    match w
    case Aead(_) => 6
    case TlsTransfer(_) => 4
    case TlsHandshake(_) => 0
  }

  function CountedSize(w: Workload): u64 {
    if w.TlsHandshake? then 0 else w.size
  }

  /** clock(i) is the i-th reading of `ofb_now_ns`; batch(i) says whether the i-th batch ran. */
  datatype World = World(clock: nat -> u64, batch: nat -> bool)

  datatype Sample = Sample(iterations: u64, elapsed: u64, bytes: u64)

  /** iterations * message_size in 64-bit arithmetic. */
  function WordProduct(n: u64, size: u64): u64 { n * size % WORD_RANGE }

  function TakeSample(world: World, reading: nat, batch: nat, n: u64, size: u64): Option<Sample> {
    var start, end := world.clock(reading), world.clock(reading + 1);
    if start == 0 || !world.batch(batch) then None
    else if end <= start || (size != 0 && n > U64_MAX / size) then None
    else Some(Sample(n, end - start, WordProduct(n, size)))
  }

  /** The iteration count chosen from the last sample of a search. */
  function Choose(fp: Format, last: Sample, target: u64): u64
    requires fp.IsRounding()
  {
    RoundedLargestWord(fp);
    var count :=
      if last.elapsed < target && last.elapsed != 0 then
        ScaledNonNegative(fp, last.iterations, target, last.elapsed);
        var scaled := Scaled(fp, last.iterations, target, last.elapsed);
        if scaled < fp.round(U64_MAX as real) then scaled.Floor else last.iterations
      else last.iterations;
    if count == 0 then 1 else count
  }

  // ----- the doubling search

  predicate Stops(s: Sample, target: u64) {
    s.elapsed >= target / 8 || s.iterations > U64_MAX / 2
  }

  /** The samples a search takes, or None as soon as one of them fails. */
  function Search(world: World, reading: nat, batch: nat, size: u64, target: u64, count: u64)
    : (r: Option<seq<Sample>>)
    requires count > 0
    ensures r.Some? ==> r.value != []
    decreases U64_MAX - count
  {
    match TakeSample(world, reading, batch, count, size)
    case None => None
    case Some(s) =>
      if Stops(s, target) then Some([s])
      else match Search(world, reading + 2, batch + 1, size, target, 2 * count)
           case None => None
           case Some(rest) => Some([s] + rest)
  }

  predicate Acceptable(s: Sample, size: u64) {
    && 0 < s.elapsed < U64_MAX
    && (size != 0 ==> s.iterations <= U64_MAX / size)
    && s.bytes == WordProduct(s.iterations, size)
  }

  /** The traces of a successful search, without reference to any world. */
  ghost predicate IsSearch(t: seq<Sample>, start: nat, size: u64, target: u64) {
    && |t| > 0
    && t[0].iterations == start
    && (forall i :: 0 <= i < |t| ==> Acceptable(t[i], size))
    && (forall i :: 0 <= i < |t| - 1 ==> !Stops(t[i], target))
    && (forall i :: 0 <= i < |t| - 1 ==> t[i + 1].iterations == 2 * t[i].iterations)
    && Stops(t[|t| - 1], target)
  }

  function Last(t: seq<Sample>): Sample
    requires |t| > 0
  {
    t[|t| - 1]
  }

  /** Every successful search starts at the start count, goes on while a sample takes less than an
      eighth of the target and the count can be doubled, doubles it each time, and ends with the
      first sample for which that is not so. */
  lemma SearchYieldsTrace(world: World, reading: nat, batch: nat, size: u64, target: u64, count: u64)
    requires count > 0
    ensures var r := Search(world, reading, batch, size, target, count);
            r.Some? ==>
              var t := r.value;
              && IsSearch(t, count, size, target) && |t| > 0 && t[0].iterations == count
              && (forall i :: 0 <= i < |t| - 1 ==> t[i].elapsed < target / 8 && t[i].iterations <= 0x7FFF_FFFF_FFFF_FFFF)
              && (forall i :: 0 < i < |t| ==> t[i].iterations == 2 * t[i - 1].iterations)
              && (t[|t| - 1].elapsed >= target / 8 || t[|t| - 1].iterations > 0x7FFF_FFFF_FFFF_FFFF)
  {
    SearchIsTrace(world, reading, batch, size, target, count);
    var r := Search(world, reading, batch, size, target, count);
    if r.Some? {
      var t := r.value;
      forall i | 0 < i < |t|
        ensures t[i].iterations == 2 * t[i - 1].iterations
      {
        assert t[i - 1 + 1].iterations == 2 * t[i - 1].iterations;
      }
    }
  }

  lemma {:induction false} SearchIsTrace(world: World, reading: nat, batch: nat, size: u64, target: u64, count: u64)
    requires count > 0
    ensures var r := Search(world, reading, batch, size, target, count);
            r.Some? ==> IsSearch(r.value, count, size, target)
    decreases U64_MAX - count
  {
    var sample := TakeSample(world, reading, batch, count, size);
    if sample.Some? && !Stops(sample.value, target) {
      SearchIsTrace(world, reading + 2, batch + 1, size, target, 2 * count);
      var rest := Search(world, reading + 2, batch + 1, size, target, 2 * count);
      if rest.Some? {
        var t := [sample.value] + rest.value;
        assert forall i :: 0 < i < |t| ==> t[i] == rest.value[i - 1];
      }
    }
  }

  /** A world in which the samples from `reading` on are exactly those of t. */
  function Replay(t: seq<Sample>): World {
    World((i: nat) => if i % 2 == 1 && i / 2 < |t| && t[i / 2].elapsed < U64_MAX then 1 + t[i / 2].elapsed else 1,
          i => true)
  }

  /** Every trace IsSearch describes is the trace of some run, so nothing proved of
      such traces is vacuous or weaker than it needs to be. */
  lemma EveryTraceOccurs(t: seq<Sample>, start: u64, size: u64, target: u64)
    requires start > 0 && IsSearch(t, start, size, target)
    ensures Search(Replay(t), 0, 0, size, target, start) == Some(t)
  {
    ReplayFrom(t, 0, size, target, start);
    assert t[0..] == t;
  }

  lemma ReplayedSample(t: seq<Sample>, i: nat, size: u64)
    requires i < |t| && Acceptable(t[i], size)
    ensures TakeSample(Replay(t), 2 * i, i, t[i].iterations, size) == Some(t[i])
  {
    assert (2 * i) % 2 == 0 && (2 * i + 1) % 2 == 1 && (2 * i + 1) / 2 == i;
    var world := Replay(t);
    assert world.clock(2 * i) == 1 && world.clock(2 * i + 1) == 1 + t[i].elapsed;
  }

  /** How a search goes on from its next sample. */
  lemma SearchStep(world: World, reading: nat, batch: nat, size: u64, target: u64, count: u64)
    requires count > 0
    ensures var sample := TakeSample(world, reading, batch, count, size);
            Search(world, reading, batch, size, target, count) ==
            if sample.None? then None
            else if Stops(sample.value, target) then Some([sample.value])
            else match Search(world, reading + 2, batch + 1, size, target, 2 * count)
                 case None => None
                 case Some(rest) => Some([sample.value] + rest)
  {
    hide TakeSample;
  }

  lemma ReplayStep(t: seq<Sample>, i: nat, size: u64, target: u64)
    requires i < |t| && Acceptable(t[i], size) && t[i].iterations > 0
    ensures Search(Replay(t), 2 * i, i, size, target, t[i].iterations) ==
            if Stops(t[i], target) then Some([t[i]])
            else match Search(Replay(t), 2 * (i + 1), i + 1, size, target, 2 * t[i].iterations)
                 case None => None
                 case Some(rest) => Some([t[i]] + rest)
  {
    hide Search, Replay, Stops;
    ReplayedSample(t, i, size);
    SearchStep(Replay(t), 2 * i, i, size, target, t[i].iterations);
  }

  lemma {:induction false} ReplayFrom(t: seq<Sample>, i: nat, size: u64, target: u64, start: u64)
    requires IsSearch(t, start, size, target) && i < |t| && t[i].iterations > 0
    ensures Search(Replay(t), 2 * i, i, size, target, t[i].iterations) == Some(t[i..])
    decreases |t| - i
  {
    assert Acceptable(t[i], size);
    assert i + 1 < |t| ==> !Stops(t[i], target) && t[i + 1].iterations == 2 * t[i].iterations;
    assert i + 1 == |t| ==> Stops(t[i], target);
    hide Search, Replay, Acceptable, Stops, IsSearch;
    ReplayStep(t, i, size, target);
    FirstAndRest(t, i);
    if i + 1 < |t| {
      ReplayFrom(t, i + 1, size, target, start);
    }
  }

  lemma FirstAndRest(t: seq<Sample>, i: nat)
    requires i < |t|
    ensures t[i..] == [t[i]] + t[i + 1..] && (i + 1 == |t| ==> t[i..] == [t[i]])
  {
  }

  /** A search that took `taken` so far ends as `whole` if the rest of it ends as `rest`. */
  ghost predicate Continues(whole: Option<seq<Sample>>, taken: seq<Sample>, rest: Option<seq<Sample>>) {
    && (whole.Some? <==> rest.Some?)
    && (whole.Some? ==> whole.value == taken + rest.value)
  }

  lemma ContinuesStep(whole: Option<seq<Sample>>, taken: seq<Sample>, s: Sample, rest: Option<seq<Sample>>, tail: Option<seq<Sample>>)
    requires |taken| > 0 && taken[|taken| - 1] == s
    requires Continues(whole, taken[..|taken| - 1], rest)
    requires rest == match tail case None => None case Some(ss) => Some([s] + ss)
    ensures Continues(whole, taken, tail)
  {
    if tail.Some? {
      assert taken[..|taken| - 1] + ([s] + tail.value) == taken + tail.value;
    }
  }

  // ----- the imperative runner

  /** What the runner does to the outside: it reads the clock, or runs a batch of iterations. */
  datatype Event = Clock | Batch(iterations: u64)

  /** What it takes to measure the samples: each batch between two readings of the clock. */
  function EventsOf(t: seq<Sample>): seq<Event> {
    if t == [] then [] else EventsOf(t[..|t| - 1]) + [Clock, Batch(t[|t| - 1].iterations), Clock]
  }

  lemma EventsOfMore(t: seq<Sample>, s: Sample)
    ensures EventsOf(t + [s]) == EventsOf(t) + [Clock, Batch(s.iterations), Clock]
  {
    assert (t + [s])[..|t|] == t;
  }

  lemma {:induction false} EventsOfConcat(a: seq<Sample>, b: seq<Sample>)
    ensures EventsOf(a + b) == EventsOf(a) + EventsOf(b)
  {
    if b == [] {
      assert a + b == a;
    } else {
      assert (a + b)[..|a + b| - 1] == a + b[..|b| - 1];
      EventsOfConcat(a, b[..|b| - 1]);
    }
  }

  class Runner {
    const world: World
    const fp: Format
    var readings: nat
    var batches: nat
    ghost var samples: seq<Sample>
    ghost var events: seq<Event>

    constructor (world: World, fp: Format)
      ensures this.world == world && this.fp == fp
      ensures readings == 0 && batches == 0 && samples == [] && events == []
    {
      this.world, this.fp := world, fp;
      readings, batches, samples, events := 0, 0, [], [];
    }

    method NowNs() returns (t: u64)
      modifies this`readings, this`events
      ensures t == world.clock(old(readings)) && readings == old(readings) + 1
      ensures events == old(events) + [Clock]
    {
      t := world.clock(readings);
      readings, events := readings + 1, events + [Clock];
    }

    method RunBatch(iterations: u64) returns (ok: bool)
      modifies this`batches, this`events
      ensures ok == world.batch(old(batches)) && batches == old(batches) + 1
      ensures events == old(events) + [Batch(iterations)]
    {
      ok := world.batch(batches);
      batches, events := batches + 1, events + [Batch(iterations)];
    }

    /** The clock, the batch, the clock again, stopping where something is wrong. */
    method RunSample(iterations: u64, size: u64) returns (sample: Option<Sample>)
      modifies this
      ensures sample == TakeSample(world, old(readings), old(batches), iterations, size)
      ensures sample.Some? ==>
                && readings == old(readings) + 2 && batches == old(batches) + 1
                && samples == old(samples) + [sample.value]
      ensures sample.Some? ==> sample.value.iterations == iterations
      ensures sample.Some? ==> events == old(events) + [Clock, Batch(iterations), Clock]
      ensures events == old(events) + if world.clock(old(readings)) == 0 then [Clock]
                                      else if !world.batch(old(batches)) then [Clock, Batch(iterations)]
                                      else [Clock, Batch(iterations), Clock]
      ensures sample.None? ==> samples == old(samples)
    {
      var start := NowNs();
      if start == 0 {
        return None;
      }
      var ran := RunBatch(iterations);
      if !ran {
        return None;
      }
      var end := NowNs();
      if end <= start || (size != 0 && iterations > U64_MAX / size) {
        return None;
      }
      var s := Sample(iterations, end - start, WordProduct(iterations, size));
      samples := samples + [s];
      return Some(s);
    }

    /** The doubling loop: returns the last sample taken. */
    method RunSearch(size: u64, target: u64, start: u64) returns (last: Option<Sample>)
      requires start > 0
      modifies this
      ensures var r := Search(world, old(readings), old(batches), size, target, start);
              && (last.Some? <==> r.Some?)
              && (r.Some? ==>
                  && samples == old(samples) + r.value && last.value == Last(r.value)
                  && events == old(events) + EventsOf(r.value)
                  && readings == old(readings) + 2 * |r.value| && batches == old(batches) + |r.value|)
    {
      hide TakeSample, Search;
      var count: u64 := start;
      ghost var whole := Search(world, readings, batches, size, target, count);
      ghost var taken: seq<Sample> := [];
      while true
        invariant count > 0
        invariant samples == old(samples) + taken && events == old(events) + EventsOf(taken)
        invariant readings == old(readings) + 2 * |taken| && batches == old(batches) + |taken|
        invariant Continues(whole, taken, Search(world, readings, batches, size, target, count))
        decreases U64_MAX - count
      {
        ghost var rest := Search(world, readings, batches, size, target, count);
        SearchStep(world, readings, batches, size, target, count);
        last := RunSample(count, size);
        if last.None? {
          return;
        }
        EventsOfMore(taken, last.value);
        taken := taken + [last.value];
        if last.value.elapsed >= target / 8 || count > U64_MAX / 2 {
          assert rest == Some([last.value]);
          return;
        }
        count := count * 2;
        ContinuesStep(whole, taken, last.value, rest, Search(world, readings, batches, size, target, count));
      }
    }

    method Calibrate(w: Workload, target: u64) returns (iterations: Option<u64>)
      requires fp.IsRounding()
      modifies this
      ensures var r := Search(world, old(readings), old(batches), CountedSize(w), target, StartCount(w));
              && (iterations.Some? <==> r.Some?)
              && (r.Some? ==>
                  && samples == old(samples) + r.value && events == old(events) + EventsOf(r.value)
                  && readings == old(readings) + 2 * |r.value| && batches == old(batches) + |r.value|
                  && IsSearch(r.value, StartCount(w), CountedSize(w), target)
                  && iterations.value == Choose(fp, Last(r.value), target))
    {
      SearchIsTrace(world, readings, batches, CountedSize(w), target, StartCount(w));
      var last := RunSearch(CountedSize(w), target, StartCount(w));
      if last.None? {
        return None;
      }
      var count := last.value.iterations;
      RoundedLargestWord(fp);
      if last.value.elapsed < target && last.value.elapsed != 0 {
        ScaledNonNegative(fp, count, target, last.value.elapsed);
        var scaled := Scaled(fp, count, target, last.value.elapsed);
        if scaled < fp.round(U64_MAX as real) {
          count := scaled.Floor;
        }
      }
      if count == 0 {
        count := 1;
      }
      return Some(count);
    }
  }

  /** Every sample of the list took n iterations and reports the bytes they processed. */
  ghost predicate Uniform(samples: seq<Sample>, n: u64, size: u64) {
    forall i :: 0 <= i < |samples| ==> samples[i].iterations == n && samples[i].bytes == n * size && samples[i].elapsed > 0
  }

  /** `count` samples of n iterations in a row, or None as soon as one of them fails. */
  function TakeSamples(world: World, reading: nat, batch: nat, n: u64, size: u64, count: nat): Option<seq<Sample>> {
    if count == 0 then Some([])
    else match TakeSamples(world, reading, batch, n, size, count - 1)
         case None => None
         case Some(front) =>
           match TakeSample(world, reading + 2 * (count - 1), batch + count - 1, n, size)
           case None => None
           case Some(s) => Some(front + [s])
  }

  lemma {:induction false} SamplesAreUniform(world: World, reading: nat, batch: nat, n: u64, size: u64, count: nat)
    ensures var r := TakeSamples(world, reading, batch, n, size, count);
            r.Some? ==> |r.value| == count && Uniform(r.value, n, size)
  {
    if count > 0 {
      SamplesAreUniform(world, reading, batch, n, size, count - 1);
      GuardIsExact(world, reading + 2 * (count - 1), batch + count - 1, n, size);
    }
  }

  lemma {:induction false} FailureIsFinal(world: World, reading: nat, batch: nat, n: u64, size: u64, i: nat, count: nat)
    requires i <= count && TakeSamples(world, reading, batch, n, size, i).None?
    ensures TakeSamples(world, reading, batch, n, size, count).None?
  {
    if i < count {
      FailureIsFinal(world, reading, batch, n, size, i, count - 1);
    }
  }

  /** The outcome of a case: the calibrated count and the samples taken with it. */
  function Case(world: World, fp: Format, reading: nat, batch: nat, w: Workload, target: u64, count: nat): Option<seq<Sample>>
    requires fp.IsRounding()
  {
    var search := Search(world, reading, batch, CountedSize(w), target, StartCount(w));
    if search.None? then None
    else TakeSamples(world, reading + 2 * |search.value|, batch + |search.value|,
                     Choose(fp, Last(search.value), target), CountedSize(w), count)
  }

  /** The i-th sample in a row. */
  function SampleAt(world: World, reading: nat, batch: nat, n: u64, size: u64, i: nat): Option<Sample> {
    TakeSample(world, reading + 2 * i, batch + i, n, size)
  }

  /** One of `count` samples in a row fails. */
  ghost predicate SampleFails(world: World, reading: nat, batch: nat, n: u64, size: u64, count: nat) {
    exists i: nat :: i < count && SampleAt(world, reading, batch, n, size, i).None?
  }

  lemma {:induction false} SamplesFailExactlyWhen(world: World, reading: nat, batch: nat, n: u64, size: u64, count: nat)
    ensures TakeSamples(world, reading, batch, n, size, count).None?
       <==> SampleFails(world, reading, batch, n, size, count)
  {
    if count > 0 {
      SamplesFailExactlyWhen(world, reading, batch, n, size, count - 1);
      if TakeSamples(world, reading, batch, n, size, count).None?
         && TakeSamples(world, reading, batch, n, size, count - 1).Some? {
        assert SampleAt(world, reading, batch, n, size, count - 1).None?;
      }
      if i: nat :| i < count && SampleAt(world, reading, batch, n, size, i).None? {
        assert i < count - 1 ==> TakeSamples(world, reading, batch, n, size, count - 1).None?;
      }
    }
  }

  lemma CaseFailsExactlyWhen(world: World, fp: Format, reading: nat, batch: nat, w: Workload, target: u64, count: nat)
    requires fp.IsRounding()
    ensures var search := Search(world, reading, batch, CountedSize(w), target, StartCount(w));
            Case(world, fp, reading, batch, w, target, count).None? <==>
              || search.None?
              || SampleFails(world, reading + 2 * |search.value|, batch + |search.value|,
                             Choose(fp, Last(search.value), target), CountedSize(w), count)
  {
    hide Search, TakeSample, Choose, TakeSamples;
    var search := Search(world, reading, batch, CountedSize(w), target, StartCount(w));
    if search.Some? {
      var k := |search.value|;
      SamplesFailExactlyWhen(world, reading + 2 * k, batch + k, Choose(fp, Last(search.value), target), CountedSize(w), count);
    }
  }

  /** The measuring part of `run_case`: calibration once, then `count` samples of the chosen
      size. There are no rows if and only if the search or one of the samples fails. Bytes are
      those of the messages, and none for handshakes. */
  method MeasureCase(runner: Runner, w: Workload, target: u64, count: nat) returns (rows: Option<seq<Sample>>)
    requires runner.fp.IsRounding()
    modifies runner
    ensures rows == Case(runner.world, runner.fp, old(runner.readings), old(runner.batches), w, target, count)
    ensures var size := match w case Aead(m) => m case TlsTransfer(m) => m case TlsHandshake(_) => 0;
            var search := Search(runner.world, old(runner.readings), old(runner.batches), size, target, StartCount(w));
            rows.None? <==>
              || search.None?
              || SampleFails(runner.world, old(runner.readings) + 2 * |search.value|, old(runner.batches) + |search.value|,
                             Choose(runner.fp, Last(search.value), target), size, count)
    ensures rows.Some? ==>
              var size := match w case Aead(m) => m case TlsTransfer(m) => m case TlsHandshake(_) => 0;
              forall i :: 0 <= i < |rows.value| ==> rows.value[i].bytes == rows.value[i].iterations * size
    ensures rows.Some? ==>
              var search := Search(runner.world, old(runner.readings), old(runner.batches), CountedSize(w), target, StartCount(w));
              && search.Some?
              && |rows.value| == count
              && Uniform(rows.value, Choose(runner.fp, Last(search.value), target), CountedSize(w))
              && runner.samples == old(runner.samples) + search.value + rows.value
              && runner.events == old(runner.events) + EventsOf(search.value + rows.value)
  {
    hide Search, TakeSample, Choose, TakeSamples, EventsOf, SampleFails;
    CaseFailsExactlyWhen(runner.world, runner.fp, runner.readings, runner.batches, w, target, count);
    ghost var search := Search(runner.world, runner.readings, runner.batches, CountedSize(w), target, StartCount(w));
    var iterations := runner.Calibrate(w, target);
    if iterations.None? {
      return None;
    }
    rows := MeasureSamples(runner, iterations.value, CountedSize(w), count);
    if rows.Some? {
      EventsOfConcat(search.value, rows.value);
    }
  }

  /** The samples that are reported. */
  method MeasureSamples(runner: Runner, n: u64, size: u64, count: nat) returns (rows: Option<seq<Sample>>)
    modifies runner
    ensures rows == TakeSamples(runner.world, old(runner.readings), old(runner.batches), n, size, count)
    ensures rows.Some? ==>
              && |rows.value| == count && Uniform(rows.value, n, size)
              && runner.samples == old(runner.samples) + rows.value
              && runner.events == old(runner.events) + EventsOf(rows.value)
  {
    SamplesAreUniform(runner.world, runner.readings, runner.batches, n, size, count);
    ghost var before, reading, batch, events := runner.samples, runner.readings, runner.batches, runner.events;
    var taken: seq<Sample> := [];
    hide TakeSample, EventsOf, Uniform, TakeSamples;
    NoSamples(runner.world, reading, batch, n, size, before, events);
    for i := 0 to count
      invariant TakeSamples(runner.world, reading, batch, n, size, i) == Some(taken)
      invariant runner.readings == reading + 2 * i && runner.batches == batch + i
      invariant runner.samples == before + taken && runner.events == events + EventsOf(taken)
    {
      OneMoreSample(runner.world, reading, batch, n, size, i, count, taken, before, events);
      var s := runner.RunSample(n, size);
      if s.None? {
        return None;
      }
      taken := taken + [s.value];
    }
    return Some(taken);
  }

  lemma NoSamples(world: World, reading: nat, batch: nat, n: u64, size: u64, before: seq<Sample>, events: seq<Event>)
    ensures TakeSamples(world, reading, batch, n, size, 0) == Some([])
    ensures before + [] == before && events + EventsOf([]) == events
  {
  }

  /** The next sample decides: if it fails there are no rows, and otherwise it is appended. */
  lemma OneMoreSample(world: World, reading: nat, batch: nat, n: u64, size: u64, i: nat, count: nat,
                      taken: seq<Sample>, before: seq<Sample>, events: seq<Event>)
    requires i < count && TakeSamples(world, reading, batch, n, size, i) == Some(taken)
    ensures match TakeSample(world, reading + 2 * i, batch + i, n, size)
            case None => TakeSamples(world, reading, batch, n, size, count).None?
            case Some(s) =>
              && TakeSamples(world, reading, batch, n, size, i + 1) == Some(taken + [s])
              && before + taken + [s] == before + (taken + [s])
              && (s.iterations == n ==> events + EventsOf(taken) + [Clock, Batch(n), Clock] == events + EventsOf(taken + [s]))
  {
    hide TakeSample;
    match TakeSample(world, reading + 2 * i, batch + i, n, size)
    case None => FailureIsFinal(world, reading, batch, n, size, i + 1, count);
    case Some(s) => EventsOfMore(taken, s);
  }

  // ----- what every successful search satisfies

  lemma {:induction false} CountsDouble(t: seq<Sample>, start: nat, size: u64, target: u64, i: nat)
    requires IsSearch(t, start, size, target) && i < |t|
    ensures t[i].iterations == start * Pow2(i)
  {
    if i > 0 {
      CountsDouble(t, start, size, target, i - 1);
      assert t[i - 1 + 1].iterations == 2 * t[i - 1].iterations;
      hide IsSearch;
      TwiceAsMuch(start, i);
    }
  }

  lemma TwiceAsMuch(start: nat, i: nat)
    requires i > 0
    ensures start * Pow2(i) == 2 * (start * Pow2(i - 1))
  {
    assert Pow2(i) == 2 * Pow2(i - 1);
  }

  lemma StartIsPow2(w: Workload)
    ensures StartCount(w) == Pow2(StartExponent(w))
  {
    assert Pow2(6) == 64;
  }

  /** The search ends: after at most 58, 60 or 64 samples, and every count in it is
      the start count times a power of two, with no wrap-around on the way. */
  lemma SearchLength(t: seq<Sample>, w: Workload, target: u64)
    requires IsSearch(t, StartCount(w), CountedSize(w), target)
    ensures match w
            case Aead(_) => |t| <= 58 && forall i :: 0 <= i < |t| ==> t[i].iterations == 64 * Pow2(i)
            case TlsTransfer(_) => |t| <= 60 && forall i :: 0 <= i < |t| ==> t[i].iterations == 16 * Pow2(i)
            case TlsHandshake(_) => |t| <= 64 && forall i :: 0 <= i < |t| ==> t[i].iterations == Pow2(i)
  {
    SearchCounts(t, w, target);
    forall i | 0 <= i < |t|
      ensures t[i].iterations == StartCount(w) * Pow2(i)
    {
      CountsDouble(t, StartCount(w), CountedSize(w), target, i);
    }
  }

  lemma SearchCounts(t: seq<Sample>, w: Workload, target: u64)
    requires IsSearch(t, StartCount(w), CountedSize(w), target)
    ensures |t| + StartExponent(w) <= 64
    ensures forall i :: 0 <= i < |t| ==> t[i].iterations == Pow2(StartExponent(w) + i)
  {
    StartIsPow2(w);
    forall i | 0 <= i < |t|
      ensures t[i].iterations == Pow2(StartExponent(w) + i)
    {
      CountsDouble(t, StartCount(w), CountedSize(w), target, i);
      Pow2Add(StartExponent(w), i);
    }
    Pow2Fits(StartExponent(w) + |t| - 1);
  }

  /** The guard before the multiplication rejects exactly the products that do not fit,
      so a sample that is reported carries the true byte count. */
  lemma GuardIsExact(world: World, reading: nat, batch: nat, n: u64, size: u64)
    ensures var s := TakeSample(world, reading, batch, n, size);
            var ran := world.batch(batch) && 0 < world.clock(reading) < world.clock(reading + 1);
            && (s.Some? <==> ran && n * size <= U64_MAX)
            && (s.Some? ==> s.value == Sample(n, world.clock(reading + 1) - world.clock(reading), n * size))
  {
    GuardMeaning(n, size);
  }

  lemma GuardMeaning(n: nat, size: nat)
    ensures (size != 0 && n > U64_MAX / size) <==> n * size > U64_MAX
  {
    if size != 0 {
      AtMostQuotient(n, U64_MAX, size);
    }
  }

  lemma StopsOnTime(s: Sample, size: u64, target: u64)
    requires Acceptable(s, size) && Stops(s, target) && size >= 2
    ensures s.elapsed >= target / 8
  {
    GuardMeaning(s.iterations, size);
    ProductLe(s.iterations, 2, size);
  }

  /** A run with samples of one nanosecond, which goes on until the counts run out. */
  function EndlessRun(w: Workload): seq<Sample> {
    var e := StartExponent(w);
    seq(64 - e, i requires 0 <= i < 64 - e => ShortSample(e + i, CountedSize(w)))
  }

  function ShortSample(e: nat, size: u64): Sample
    requires e <= 63
  {
    Pow2Of63And64();
    Pow2Monotone(e, 63);
    Sample(Pow2(e), 1, WordProduct(Pow2(e), size))
  }

  lemma ShortSampleFits(e: nat, size: u64, target: u64)
    requires e <= 63 && size < 2 && target >= 16
    ensures Acceptable(ShortSample(e, size), size)
    ensures Stops(ShortSample(e, size), target) <==> e == 63
  {
    Pow2Of63And64();
    Pow2Monotone(e, 63);
    ProductLe(Pow2(e), size, 1);
    GuardMeaning(Pow2(e), size);
    if e < 63 {
      Pow2Monotone(e + 1, 63);
    }
  }

  lemma EndlessRunIsSearch(w: Workload, target: u64)
    requires CountedSize(w) < 2 && target >= 16
    ensures IsSearch(EndlessRun(w), StartCount(w), CountedSize(w), target) && Last(EndlessRun(w)).elapsed == 1
  {
    var t, e, size := EndlessRun(w), StartExponent(w), CountedSize(w);
    StartIsPow2(w);
    assert t[0] == ShortSample(e, size);
    assert Last(t) == ShortSample(63, size);
    ShortSampleFits(63, size, target);
    forall i | 0 <= i < |t|
      ensures Acceptable(t[i], size)
    {
      ShortSampleFits(e + i, size, target);
    }
    forall i | 0 <= i < |t| - 1
      ensures !Stops(t[i], target) && t[i + 1].iterations == 2 * t[i].iterations
    {
      ShortSampleFits(e + i, size, target);
      assert t[i + 1] == ShortSample(e + i + 1, size);
    }
  }

  /** For a given target, every successful search ends with a sample of at least an eighth of
      it, if and only if messages of at least two bytes are counted or the target is below
      sixteen nanoseconds; otherwise the counts may run out first. */
  lemma StopsOnTimeExactlyWhen(w: Workload, target: u64)
    ensures (forall t :: IsSearch(t, StartCount(w), CountedSize(w), target) ==> Last(t).elapsed >= target / 8)
       <==> CountedSize(w) >= 2 || target < 16
  {
    if CountedSize(w) >= 2 {
      forall t | IsSearch(t, StartCount(w), CountedSize(w), target)
        ensures Last(t).elapsed >= target / 8
      {
        StopsOnTime(Last(t), CountedSize(w), target);
      }
    } else if target >= 16 {
      EndlessRunIsSearch(w, target);
    } else {
      forall t | IsSearch(t, StartCount(w), CountedSize(w), target)
        ensures Last(t).elapsed >= target / 8
      {
        assert Acceptable(Last(t), CountedSize(w));
      }
    }
  }

  function TotalIterations(t: seq<Sample>): nat {
    if t == [] then 0 else t[0].iterations + TotalIterations(t[1..])
  }

  function TotalElapsed(t: seq<Sample>): nat {
    if t == [] then 0 else t[0].elapsed + TotalElapsed(t[1..])
  }

  /** The whole search spends twice the iterations of its last sample, less the start count. */
  lemma {:induction false} SearchCost(t: seq<Sample>, start: nat, size: u64, target: u64)
    requires IsSearch(t, start, size, target)
    ensures TotalIterations(t) == 2 * Last(t).iterations - start
    decreases |t|
  {
    if |t| == 1 {
      assert t[1..] == [];
    } else {
      var rest := t[1..];
      assert forall i :: 0 <= i < |rest| ==> rest[i] == t[i + 1];
      SearchCost(rest, 2 * start, size, target);
    }
  }

  // ----- the chosen count

  /** Whatever the clock did, the chosen count is at most fifteen times the last count, for
      every format and rounding. It is at least the last count, and the fallback to 1 is
      never taken, if the format holds the elapsed time or rounds it to a number it holds. */
  lemma WithinFifteenfold(t: seq<Sample>, w: Workload, target: u64, fp: Format)
    requires IsSearch(t, StartCount(w), CountedSize(w), target) && fp.IsRounding()
    ensures 0 < Choose(fp, Last(t), target) <= 15 * Last(t).iterations
    ensures target <= Pow2(fp.precision) || fp.IsOnGrid() ==> 0 < Last(t).iterations <= Choose(fp, Last(t), target)
  {
    var s := Last(t);
    SearchCounts(t, w, target);
    var e := StartExponent(w) + |t| - 1;
    assert s.iterations == Pow2(e);
    if s.elapsed < target {
      if s.elapsed >= target / 8 {
        AtMostFifteenfold(fp, e, target, s.elapsed);
        if target <= Pow2(fp.precision) || fp.IsOnGrid() {
          ElapsedLands(fp, s.elapsed, target);
          AtLeastCount(fp, e, target, s.elapsed);
        }
      } else {
        // the counts ran out: the quotient is past any word and is not used
        Pow2Of63And64();
        assert Pow2(e) > U64_MAX / 2;
        LargestPower(e);
        PastAnyWord(fp, target, s.elapsed);
      }
    }
  }

  lemma ElapsedLands(fp: Format, elapsed: u64, target: u64)
    requires fp.IsRounding() && elapsed <= target && (target <= Pow2(fp.precision) || fp.IsOnGrid())
    ensures fp.Lands(elapsed)
  {
    if target <= Pow2(fp.precision) {
      SmallWordsLand(fp, elapsed);
    }
  }

  lemma LargestPower(e: nat)
    requires U64_MAX / 2 < Pow2(e) <= U64_MAX
    ensures e == 63
  {
    Pow2Of63And64();
    if e < 63 {
      Pow2Monotone(e + 1, 63);
    } else {
      Pow2Fits(e);
    }
  }

  // ----- calibration meets the requested duration when the cost of a run is known

  /** An iteration of the sample cost between lo and hi nanoseconds. */
  predicate Costs(s: Sample, lo: nat, hi: nat) {
    lo * s.iterations <= s.elapsed <= hi * s.iterations
  }

  ghost predicate CostsBetween(t: seq<Sample>, lo: nat, hi: nat) {
    forall i :: 0 <= i < |t| ==> Costs(t[i], lo, hi)
  }

  /** The iterations that fit the target lie between target/hi and target/lo; so must the
      chosen count, except that the search never goes below its start count. */
  predicate Sandwiched(chosen: nat, w: Workload, target: u64, lo: nat, hi: nat)
    requires 0 < lo && 0 < hi
  {
    target / hi <= chosen <= Max(StartCount(w), target / lo)
  }

  /** The one family where the guard `scaled < UINT64_MAX` discards a quotient it need not:
      the largest target, at one nanosecond an iteration. */
  predicate GuardMisfires(w: Workload, target: u64, lo: nat, hi: nat) {
    target == U64_MAX && lo == 1 && hi < 8 && CountedSize(w) < 8
  }

  lemma LastCountIsModest(t: seq<Sample>, start: nat, size: u64, target: u64, lo: nat, hi: nat)
    requires IsSearch(t, start, size, target) && CostsBetween(t, lo, hi) && lo > 0
    ensures Last(t).iterations <= Max(start, target / lo)
  {
    if |t| > 1 {
      var p := t[|t| - 2];
      assert !Stops(p, target) && Costs(p, lo, hi);
      assert Last(t).iterations == 2 * p.iterations;
      TwiceFits(lo, p.iterations, p.elapsed, target);
      AtMostQuotient(Last(t).iterations, target, lo);
    }
  }

  lemma TwiceFits(lo: nat, n: nat, elapsed: nat, target: nat)
    requires lo * n <= elapsed < target / 8
    ensures lo * (2 * n) <= target
  {
    assert lo * (2 * n) == 2 * (lo * n);
  }

  lemma AtMostQuotient(n: nat, a: nat, b: nat)
    requires b > 0
    ensures n <= a / b <==> b * n <= a
  {
    DivBounds(a, b);
    if n <= a / b {
      ProductLe(b, n, a / b);
    } else {
      ProductLe(b, a / b + 1, n);
    }
  }

  /** When a quotient is formed and is not the largest word, it is used, and stays in bounds. */
  lemma ScaledInBounds(fp: Format, e: nat, s: Sample, target: u64, lo: nat, hi: nat)
    requires fp.IsNearest() && e <= 63 && s.iterations == Pow2(e) && target < Pow2(fp.precision)
    requires 0 < lo && 0 < hi && Costs(s, lo, hi) && 0 < s.elapsed < target
    requires target < U64_MAX || lo > 1 || s.elapsed > s.iterations
    ensures Quotient(target, hi) <= Choose(fp, s, target) <= Quotient(target, lo)
  {
    LeastFits(target, hi);
    ScaledHigh(fp, e, s, target, lo, hi);
    hide *;
    ChosenBetween(fp, e, s, target, lo, hi, Quotient(target, hi), Quotient(target, lo));
  }

  lemma ChosenBetween(fp: Format, e: nat, s: Sample, target: u64, lo: nat, hi: nat, least: nat, most: nat)
    requires fp.IsNearest() && e <= 63 && s.iterations == Pow2(e) && target < Pow2(fp.precision)
    requires 0 < lo && 0 < hi && Costs(s, lo, hi) && 0 < s.elapsed < target
    requires target < U64_MAX || lo > 1 || s.elapsed > s.iterations
    requires Outweighs(target, 1, least, hi) && Scaled(fp, s.iterations, target, s.elapsed) < (most + 1) as real
    ensures least <= Choose(fp, s, target) <= most
  {
    assert s.iterations > 0 && fp.IsRounding();
    hide *;
    ScaledLow(fp, e, s, target, lo, hi, least);
    ScaledIsUsed(fp, e, s, target, lo, hi);
    SmallWordsLand(fp, s.elapsed);
    AtLeastCount(fp, e, target, s.elapsed);
    ChosenFrom(fp, s, target);
    FloorBetween(Scaled(fp, s.iterations, target, s.elapsed), least, most);
  }

  lemma LeastFits(target: nat, hi: nat)
    requires hi > 0
    ensures Outweighs(target, 1, Quotient(target, hi), hi)
  {
    DivBounds(target, hi);
  }

  lemma FloorBetween(x: real, least: nat, most: nat)
    requires least as real <= x < (most + 1) as real
    ensures least <= x.Floor <= most
  {
  }

  lemma ScaledLow(fp: Format, e: nat, s: Sample, target: u64, lo: nat, hi: nat, least: nat)
    requires fp.IsRounding() && e <= 63 && s.iterations == Pow2(e) && target < Pow2(fp.precision)
    requires 0 < hi && Costs(s, lo, hi) && 0 < s.elapsed < target && Outweighs(target, 1, least, hi)
    ensures least as real <= Scaled(fp, s.iterations, target, s.elapsed)
  {
    LowQuotient(s, target, lo, hi, least);
    hide *;
    LowBound(fp, e, target, s.elapsed, least);
  }

  lemma LowBound(fp: Format, e: nat, target: u64, elapsed: u64, least: nat)
    requires fp.IsRounding() && e <= 63 && Pow2(e) <= U64_MAX && 0 < elapsed < target < Pow2(fp.precision)
    requires least <= target && Outweighs(Pow2(e), target, least, elapsed)
    ensures least as real <= Scaled(fp, Pow2(e), target, elapsed)
  {
    RoundKeeps(fp, target);
    RoundKeeps(fp, elapsed);
    assert Shifted(target, 0) == target && Shifted(least, 0) == least;
    hide Scaled, Shifted;
    ScaledAtLeast(fp, e, target, elapsed, target, 0, elapsed, least, 0);
  }

  /** The quotient stays below the rounded largest word, so the guard lets it through. */
  lemma ScaledIsUsed(fp: Format, e: nat, s: Sample, target: u64, lo: nat, hi: nat)
    requires fp.IsRounding() && e <= 63 && s.iterations == Pow2(e) && target < Pow2(fp.precision)
    requires 0 < lo && Costs(s, lo, hi) && 0 < s.elapsed < target
    requires target < U64_MAX || lo > 1 || s.elapsed > s.iterations
    ensures Scaled(fp, s.iterations, target, s.elapsed) < fp.round(U64_MAX as real)
  {
    Pow2Of63And64();
    Pow2Monotone(e, 63);
    RoundKeeps(fp, target);
    RoundKeeps(fp, s.elapsed);
    if fp.precision >= 64 {
      Pow2Monotone(64, fp.precision);
      RoundKeeps(fp, U64_MAX);
      BelowLargestWord(s.iterations, target, s.elapsed, lo);
      HighBound(fp, e, target, s.elapsed, U64_MAX - 1);
    } else {
      Pow2Monotone(fp.precision, 63);
      RoundedLargestWord(fp);
      ProductLe(s.iterations, 1, lo);
      ProductLe(target, s.iterations, s.elapsed);
      HighBound(fp, e, target, s.elapsed, target);
    }
  }

  lemma HighBound(fp: Format, e: nat, target: u64, elapsed: u64, most: nat)
    requires fp.IsRounding() && e <= 63 && Pow2(e) <= U64_MAX && 0 < elapsed < target < Pow2(fp.precision)
    requires fp.round(target as real) == target as real && fp.round(elapsed as real) == elapsed as real
    requires most <= Pow2(fp.precision) && Pow2(e) * target <= most * elapsed
    ensures Scaled(fp, Pow2(e), target, elapsed) <= most as real
  {
    assert Shifted(target, 0) == target && Shifted(most, 0) == most;
    hide Scaled, Shifted;
    ScaledAtMost(fp, e, target, elapsed, target, 0, elapsed, most, 0);
  }

  lemma ScaledHigh(fp: Format, e: nat, s: Sample, target: u64, lo: nat, hi: nat)
    requires fp.IsNearest() && e <= 63 && s.iterations == Pow2(e) && target < Pow2(fp.precision)
    requires 0 < lo && Costs(s, lo, hi) && 0 < s.elapsed < target
    ensures Scaled(fp, s.iterations, target, s.elapsed) < (Quotient(target, lo) + 1) as real
  {
    ScaledValue(fp, e, target, s.elapsed);
    var q := Over((s.iterations * target) as real, s.elapsed as real);
    ProductLe(lo, 1, s.iterations);
    HighQuotient(s.iterations, target, s.elapsed, lo);
    assert fp.Monotone(q, Over(target as real, lo as real));
    RoundedRatio(fp, target, lo);
  }

  lemma LowQuotient(s: Sample, target: nat, lo: nat, hi: nat, least: nat)
    requires 0 < hi && Costs(s, lo, hi) && Outweighs(target, 1, least, hi)
    ensures Outweighs(s.iterations, target, least, s.elapsed) && least <= target
  {
    var count := s.iterations;
    ProductLe(least, 1, hi);
    calc {
      least * s.elapsed;
    <= { ProductLe(least, s.elapsed, hi * count); }
      least * (hi * count);
    ==
      (least * hi) * count;
    <= { ProductLe(count, least * hi, target); }
      target * count;
    }
  }

  lemma BelowLargestWord(count: nat, target: u64, elapsed: nat, lo: nat)
    requires 0 < count <= 0x8000_0000_0000_0000 && 0 < lo && lo * count <= elapsed
    requires target < U64_MAX || lo > 1 || elapsed > count
    ensures count * target <= (U64_MAX - 1) * elapsed
  {
    ProductLe(count, 1, lo);
    if target < U64_MAX {
      ProductLe(count, target, U64_MAX - 1);
      ProductLe(U64_MAX - 1, count, elapsed);
    } else if lo > 1 {
      ProductLe(count, 2, lo);
      ProductLe(U64_MAX - 1, 2 * count, elapsed);
    } else {
      ProductLe(U64_MAX - 1, count + 1, elapsed);
    }
  }

  lemma HighQuotient(count: nat, target: nat, elapsed: nat, lo: nat)
    requires 0 < lo && 0 < elapsed && lo * count <= elapsed
    ensures Over((count * target) as real, elapsed as real) <= Over(target as real, lo as real)
  {
    var x := Over(target as real, lo as real);
    assert x * lo as real == target as real;
    ProductAsReal(lo, count);
    ProductAsReal(count, target);
    var c, e := count as real, elapsed as real;
    DivGe(target as real, lo as real, 0.0);
    calc {
      c * target as real;
      c * (x * lo as real);
      x * (lo as real * c);
    <= { RealProductLe(x, lo as real * c, e); }
      x * e;
    }
    DivLe((count * target) as real, e, x);
  }

  /** At one nanosecond an iteration and with the largest target, the quotient is the
      largest word, the guard discards it, and the last count is kept. */
  lemma GuardDiscards(fp: Format, e: nat, s: Sample)
    requires fp.IsRounding() && e <= 63 && s.iterations == Pow2(e) && U64_MAX < Pow2(fp.precision)
    requires s.elapsed == s.iterations
    ensures Choose(fp, s, U64_MAX) == s.iterations
  {
    Pow2Of63And64();
    Pow2Monotone(e, 63);
    RoundKeeps(fp, U64_MAX);
    RoundKeeps(fp, s.elapsed);
    assert Pow2(e) * U64_MAX == U64_MAX * s.elapsed;
    LowBound(fp, e, U64_MAX, s.elapsed, U64_MAX);
  }

  lemma Sandwich(t: seq<Sample>, w: Workload, target: u64, fp: Format, lo: nat, hi: nat)
    requires IsSearch(t, StartCount(w), CountedSize(w), target) && fp.IsNearest() && target < Pow2(fp.precision)
    requires 0 < lo && 0 < hi && CostsBetween(t, lo, hi) && !GuardMisfires(w, target, lo, hi)
    ensures Sandwiched(Choose(fp, Last(t), target), w, target, lo, hi)
    ensures target / hi <= Choose(fp, Last(t), target) <= Max(StartCount(w), target / lo)
  {
    var s := Last(t);
    SearchCounts(t, w, target);
    var e := StartExponent(w) + |t| - 1;
    assert Costs(s, lo, hi);
    LastCountIsModest(t, StartCount(w), CountedSize(w), target, lo, hi);
    if s.elapsed >= target {
      QuotientAtMost(target, hi, s.iterations);
    } else if target < U64_MAX || lo > 1 || s.elapsed > s.iterations {
      ScaledInBounds(fp, e, s, target, lo, hi);
    } else {
      OneNanosecondEach(fp, e, s, CountedSize(w), lo, hi);
    }
  }

  lemma OneNanosecondEach(fp: Format, e: nat, s: Sample, size: u64, lo: nat, hi: nat)
    requires fp.IsNearest() && e <= 63 && s.iterations == Pow2(e) && U64_MAX < Pow2(fp.precision)
    requires lo == 1 && Costs(s, lo, hi) && s.elapsed <= s.iterations
    requires Acceptable(s, size) && Stops(s, U64_MAX) && (hi >= 8 || size >= 8)
    ensures hi >= 8 && Choose(fp, s, U64_MAX) == s.iterations && U64_MAX / hi <= s.iterations
  {
    GuardDiscards(fp, e, s);
    LargeLastCount(e);
    if size >= 8 {
      GuardMeaning(s.iterations, size);
      ProductLe(s.iterations, 8, size);
    }
    ProductLe(s.iterations, 8, hi);
    QuotientAtMost(U64_MAX, hi, s.iterations);
  }

  lemma QuotientAtMost(a: nat, b: nat, n: nat)
    requires b > 0 && a <= b * n + (b - 1)
    ensures a / b <= n
  {
    AtMostQuotient(n + 1, a, b);
  }

  lemma LargeLastCount(e: nat)
    ensures Pow2(e) >= U64_MAX / 8 ==> Pow2(e) >= 0x2000_0000_0000_0000
    ensures Pow2(61) == 0x2000_0000_0000_0000
  {
    Pow2Of63And64();
    assert Pow2(63) == 2 * Pow2(62) && Pow2(62) == 2 * Pow2(61) && Pow2(61) == 2 * Pow2(60);
    if e >= 61 {
      Pow2Monotone(61, e);
    } else {
      Pow2Monotone(e, 60);
    }
  }

  /** The run in which every iteration takes one nanosecond and the search ends at 2^last. */
  function OneNanosecondRun(w: Workload, last: nat): seq<Sample>
    requires StartExponent(w) <= last <= 61
  {
    var e := StartExponent(w);
    seq(last + 1 - e, i requires 0 <= i < last + 1 - e => PowerSample(e + i, CountedSize(w)))
  }

  function PowerSample(e: nat, size: u64): Sample
    requires e <= 61
  {
    Pow2Of63And64();
    Pow2Monotone(e, 63);
    Sample(Pow2(e), Pow2(e), WordProduct(Pow2(e), size))
  }

  lemma PowerSampleFits(e: nat, size: u64, hi: nat, target: u64)
    requires e <= 61 && size < 8 && hi >= 1
    ensures var s := PowerSample(e, size);
            && Acceptable(s, size) && Costs(s, 1, hi)
            && (Stops(s, target) <==> Pow2(e) >= target / 8)
  {
    LargeLastCount(e);
    Pow2Monotone(e, 61);
    ProductLe(Pow2(e), size, 7);
    GuardMeaning(Pow2(e), size);
    ProductLe(Pow2(e), 1, hi);
  }

  /** 2^last is the first count of a search for the target that takes an eighth of it. */
  ghost predicate EndsAt(w: Workload, target: u64, last: nat) {
    && StartExponent(w) <= last <= 61 && Pow2(last) >= target / 8
    && forall i :: StartExponent(w) <= i < last ==> Pow2(i) < target / 8
  }

  lemma OneNanosecondRunIsSearch(w: Workload, hi: nat, target: u64, last: nat)
    requires CountedSize(w) < 8 && hi >= 1 && EndsAt(w, target, last)
    ensures var t := OneNanosecondRun(w, last);
            && IsSearch(t, StartCount(w), CountedSize(w), target)
            && CostsBetween(t, 1, hi)
            && Last(t).iterations == Last(t).elapsed == Pow2(last)
  {
    StartIsPow2(w);
    PowerRun(OneNanosecondRun(w, last), StartExponent(w), CountedSize(w), hi, target, last);
  }

  /** The samples of consecutive powers of two from 2^e to 2^last. */
  ghost predicate IsPowerRun(t: seq<Sample>, e: nat, last: nat, size: u64) {
    && e <= last <= 61 && |t| == last + 1 - e
    && forall i :: 0 <= i < |t| ==> t[i] == PowerSample(e + i, size)
  }

  lemma PowerRun(t: seq<Sample>, e: nat, size: u64, hi: nat, target: u64, last: nat)
    requires size < 8 && hi >= 1 && IsPowerRun(t, e, last, size)
    requires Pow2(last) >= target / 8 && forall i :: e <= i < last ==> Pow2(i) < target / 8
    ensures IsSearch(t, Pow2(e), size, target) && CostsBetween(t, 1, hi)
    ensures Last(t).iterations == Last(t).elapsed == Pow2(last)
  {
    PowerSampleFits(last, size, hi, target);
    assert Last(t) == PowerSample(last, size) && t[0] == PowerSample(e, size);
    assert PowerSample(e, size).iterations == Pow2(e);
    assert PowerSample(last, size).iterations == PowerSample(last, size).elapsed == Pow2(last);
    PowerRunFits(t, e, size, hi, target, last);
    PowerRunDoubles(t, e, size, target, last);
    hide IsPowerRun, PowerSample, Acceptable, Costs, Stops, Pow2;
  }

  lemma PowerRunFits(t: seq<Sample>, e: nat, size: u64, hi: nat, target: u64, last: nat)
    requires size < 8 && hi >= 1 && IsPowerRun(t, e, last, size)
    ensures forall i :: 0 <= i < |t| ==> Acceptable(t[i], size) && Costs(t[i], 1, hi)
  {
    hide PowerSample, Acceptable, Costs;
    forall i | 0 <= i < |t|
      ensures Acceptable(t[i], size) && Costs(t[i], 1, hi)
    {
      PowerSampleFits(e + i, size, hi, target);
    }
  }

  lemma PowerRunDoubles(t: seq<Sample>, e: nat, size: u64, target: u64, last: nat)
    requires size < 8 && IsPowerRun(t, e, last, size) && forall i :: e <= i < last ==> Pow2(i) < target / 8
    ensures forall i :: 0 <= i < |t| - 1 ==> !Stops(t[i], target) && t[i + 1].iterations == 2 * t[i].iterations
  {
    hide PowerSample, Stops, Pow2;
    forall i | 0 <= i < |t| - 1
      ensures !Stops(t[i], target) && t[i + 1].iterations == 2 * t[i].iterations
    {
      NextPowerSample(e + i, size, 1, target);
      assert t[i + 1] == PowerSample(e + i + 1, size);
    }
  }

  lemma NextPowerSample(e: nat, size: u64, hi: nat, target: u64)
    requires e < 61 && size < 8 && hi >= 1 && Pow2(e) < target / 8
    ensures !Stops(PowerSample(e, size), target)
    ensures PowerSample(e + 1, size).iterations == 2 * PowerSample(e, size).iterations
  {
    PowerSampleFits(e, size, hi, target);
  }

  lemma MissedInterval(w: Workload, fp: Format, hi: nat)
    requires 0 < hi < 8 && CountedSize(w) < 8 && fp.IsRounding() && U64_MAX < Pow2(fp.precision)
    ensures var t := OneNanosecondRun(w, 61);
            && IsSearch(t, StartCount(w), CountedSize(w), U64_MAX) && CostsBetween(t, 1, hi)
            && !Sandwiched(Choose(fp, Last(t), U64_MAX), w, U64_MAX, 1, hi)
  {
    LargestTargetEnds(w);
    OneNanosecondRunIsSearch(w, hi, U64_MAX, 61);
    LargeLastCount(61);
    GuardDiscards(fp, 61, Last(OneNanosecondRun(w, 61)));
    ProductLe(Pow2(61) + 1, hi, 7);
    AtMostQuotient(Pow2(61) + 1, U64_MAX, hi);
  }

  lemma LargestTargetEnds(w: Workload)
    ensures EndsAt(w, U64_MAX, 61)
  {
    LargeLastCount(61);
    forall i | StartExponent(w) <= i < 61
      ensures Pow2(i) < U64_MAX / 8
    {
      Pow2Monotone(i + 1, 61);
    }
  }

  /** Calibration hits the interval the costs allow on every run, if and only if the
      guard does not misfire. */
  lemma SandwichedExactlyWhen(w: Workload, target: u64, fp: Format, lo: nat, hi: nat)
    requires 0 < lo <= hi && fp.IsNearest() && target < Pow2(fp.precision)
    ensures (forall t :: IsSearch(t, StartCount(w), CountedSize(w), target) && CostsBetween(t, lo, hi)
                         ==> target / hi <= Choose(fp, Last(t), target) <= Max(StartCount(w), target / lo))
       <==> !(target == 0xFFFF_FFFF_FFFF_FFFF && lo == 1 && hi < 8 && CountedSize(w) < 8)
  {
    IntervalMet(w, target, fp, lo, hi);
    assert GuardMisfires(w, target, lo, hi) <==> target == 0xFFFF_FFFF_FFFF_FFFF && lo == 1 && hi < 8 && CountedSize(w) < 8;
    hide GuardMisfires, IsSearch, CostsBetween, Choose;
    forall n: nat
      ensures Sandwiched(n, w, target, lo, hi) <==> target / hi <= n <= Max(StartCount(w), target / lo)
    {
    }
  }

  lemma IntervalMet(w: Workload, target: u64, fp: Format, lo: nat, hi: nat)
    requires 0 < lo <= hi && fp.IsNearest() && target < Pow2(fp.precision)
    ensures (forall t :: IsSearch(t, StartCount(w), CountedSize(w), target) && CostsBetween(t, lo, hi)
                         ==> Sandwiched(Choose(fp, Last(t), target), w, target, lo, hi))
       <==> !GuardMisfires(w, target, lo, hi)
  {
    if GuardMisfires(w, target, lo, hi) {
      MissedInterval(w, fp, hi);
    } else {
      forall t | IsSearch(t, StartCount(w), CountedSize(w), target) && CostsBetween(t, lo, hi)
        ensures Sandwiched(Choose(fp, Last(t), target), w, target, lo, hi)
      {
        Sandwich(t, w, target, fp, lo, hi);
      }
    }
  }

  /** If every iteration takes c nanoseconds, calibration finds exactly the number of
      iterations that fit the target (never fewer than the start count), with the same exception. */
  lemma ExactExactlyWhen(w: Workload, target: u64, fp: Format, c: nat)
    requires 0 < c && fp.IsNearest() && target < Pow2(fp.precision)
    ensures (forall t :: IsSearch(t, StartCount(w), CountedSize(w), target) && CostsBetween(t, c, c)
                         ==> Choose(fp, Last(t), target) == Max(StartCount(w), target / c))
       <==> !(target == 0xFFFF_FFFF_FFFF_FFFF && c == 1 && CountedSize(w) < 8)
  {
    IntervalIsPoint(w, target, fp, c);
    assert GuardMisfires(w, target, c, c) <==> target == 0xFFFF_FFFF_FFFF_FFFF && c == 1 && CountedSize(w) < 8;
    hide *;
  }

  lemma IntervalIsPoint(w: Workload, target: u64, fp: Format, c: nat)
    requires 0 < c && fp.IsNearest() && target < Pow2(fp.precision)
    ensures (forall t :: IsSearch(t, StartCount(w), CountedSize(w), target) && CostsBetween(t, c, c)
                         ==> Choose(fp, Last(t), target) == Max(StartCount(w), target / c))
       <==> !GuardMisfires(w, target, c, c)
  {
    IntervalMet(w, target, fp, c, c);
    forall t | IsSearch(t, StartCount(w), CountedSize(w), target)
      ensures StartCount(w) <= Choose(fp, Last(t), target)
    {
      WithinFifteenfold(t, w, target, fp);
      SearchCounts(t, w, target);
      StartIsPow2(w);
      Pow2Monotone(StartExponent(w), StartExponent(w) + |t| - 1);
    }
    if GuardMisfires(w, target, c, c) {
      var t :| IsSearch(t, StartCount(w), CountedSize(w), target) && CostsBetween(t, c, c)
               && !Sandwiched(Choose(fp, Last(t), target), w, target, c, c);
      assert Choose(fp, Last(t), target) != Max(StartCount(w), target / c) by {
        QuotientAtMost(target, c, target);
      }
    }
  }

  // ----- targets that the format cannot hold

  /** The condition on the target cannot be dropped: some nearest rounding to p bits misses the
      target 2^p + 1 on some run in which every iteration takes one nanosecond. */
  lemma LargerTargetMissed(w: Workload, p: nat, target: u64) returns (fp: Format, t: seq<Sample>)
    requires 7 <= p && target == Pow2(p) + 1 && CountedSize(w) < 8
    ensures fp.IsNearest() && fp.precision == p
    ensures IsSearch(t, StartCount(w), CountedSize(w), target) && CostsBetween(t, 1, 1)
    ensures !Sandwiched(Choose(fp, Last(t), target), w, target, 1, 1)
  {
    fp := Coarse(p);
    CoarseIsNearest(p);
    assert fp.precision == p && fp.IsRounding();
    Pow2Fits(p);
    var last := Max(StartExponent(w), p - 3);
    SmallTargetEnds(w, p, last);
    assert StartExponent(w) <= last <= 61;
    t := OneNanosecondRun(w, last);
    hide *;
    OneNanosecondRunIsSearch(w, 1, target, last);
    MissedByOne(p, last, Last(t), target);
    NotSandwichedBelow(Choose(fp, Last(t), target), w, target);
  }

  lemma NotSandwichedBelow(chosen: nat, w: Workload, target: u64)
    requires chosen < target
    ensures !Sandwiched(chosen, w, target, 1, 1)
  {
  }

  lemma SmallTargetEnds(w: Workload, p: nat, last: nat)
    requires 7 <= p <= 63 && last == Max(StartExponent(w), p - 3) && Pow2(p) + 1 <= U64_MAX
    ensures EndsAt(w, Pow2(p) + 1, last) && last < p
  {
    assert Pow2(p) == 2 * Pow2(p - 1) && Pow2(p - 1) == 2 * Pow2(p - 2) && Pow2(p - 2) == 2 * Pow2(p - 3);
    assert (Pow2(p) + 1) / 8 == Pow2(p - 3);
    Pow2Monotone(p - 3, last);
    forall i | StartExponent(w) <= i < last
      ensures Pow2(i) < Pow2(p - 3)
    {
      Pow2Monotone(i + 1, p - 3);
    }
  }

  lemma MissedByOne(p: nat, last: nat, s: Sample, target: u64)
    requires 7 <= p <= 63 && last < p && target == Pow2(p) + 1 && s.iterations == s.elapsed == Pow2(last)
    ensures Coarse(p).IsRounding() && Choose(Coarse(p), s, target) < target
  {
    Pow2Monotone(last, p);
    assert 0 < s.elapsed < target && s.iterations > 0;
    hide *;
    ScaledToPower(p, last, target, s.elapsed);
    ChosenFrom(Coarse(p), s, target);
  }

  /** The same with a relative slack: target / (slack * hi) - 1 < chosen <= slack * target / lo,
      or the start count. */
  predicate NotAbove(chosen: nat, w: Workload, target: u64, lo: nat, slack: real) {
    chosen <= StartCount(w) || Times(lo as real, chosen as real) <= Times(slack, target as real)
  }

  predicate NotBelow(chosen: nat, target: u64, hi: nat, slack: real) {
    target as real < Times(slack, Times(hi as real, (chosen + 1) as real))
  }

  /** The guard lets through whatever the quotient rounds to. */
  predicate GuardIsClear(fp: Format, target: u64, lo: nat) {
    Times(Slack(fp), Times(Slack(fp), target as real)) < Times(lo as real, U64_MAX as real)
  }

  /** For every target and every precision the result is within five units in the last place
      of the interval the costs allow: above it never, below it only where the guard discards. */
  lemma SandwichWithSlack(t: seq<Sample>, w: Workload, target: u64, fp: Format, lo: nat, hi: nat)
    requires IsSearch(t, StartCount(w), CountedSize(w), target) && fp.IsNearest()
    requires 0 < lo && 0 < hi && CostsBetween(t, lo, hi)
    ensures NotAbove(Choose(fp, Last(t), target), w, target, lo, Slack(fp))
    ensures GuardIsClear(fp, target, lo) ==> NotBelow(Choose(fp, Last(t), target), target, hi, Slack(fp))
  {
    var s := Last(t);
    SearchCounts(t, w, target);
    var e := StartExponent(w) + |t| - 1;
    assert Costs(s, lo, hi);
    LastCountIsModest(t, StartCount(w), CountedSize(w), target, lo, hi);
    LastCountNotAbove(s.iterations, w, target, lo, Slack(fp));
    if s.elapsed >= target {
      LongEnough(s, target, hi, Slack(fp));
    } else {
      StartIsPow2(w);
      ScaledWithin(fp, e, s, w, target, lo, hi);
    }
  }

  lemma LastCountNotAbove(n: nat, w: Workload, target: u64, lo: nat, slack: real)
    requires lo > 0 && n <= Max(StartCount(w), target / lo) && slack > 1.0
    ensures NotAbove(n, w, target, lo, slack)
  {
    if n > StartCount(w) {
      AtMostQuotient(n, target, lo);
      hide StartCount;
      TimesSlack(lo, n, target, slack);
    }
  }

  lemma TimesSlack(lo: nat, n: nat, target: nat, slack: real)
    requires lo * n <= target && slack > 1.0
    ensures Times(lo as real, n as real) <= Times(slack, target as real)
  {
    ProductAsReal(lo, n);
    Enlarged(target as real, slack);
  }

  lemma LongEnough(s: Sample, target: u64, hi: nat, slack: real)
    requires target <= s.elapsed <= hi * s.iterations && hi > 0 && slack > 1.0
    ensures NotBelow(s.iterations, target, hi, slack)
  {
    ProductAsReal(hi, s.iterations);
    assert target as real <= hi as real * s.iterations as real;
    hide Times;
    OneMore(hi as real, s.iterations as real);
    Enlarged(Times(hi as real, (s.iterations + 1) as real), slack);
  }

  lemma OneMore(h: real, n: real)
    requires h > 0.0
    ensures Times(h, n + 1.0) > h * n
  {
  }

  lemma Enlarged(x: real, slack: real)
    requires x >= 0.0 && slack > 1.0
    ensures x <= Times(slack, x)
  {
    ProductOfNonNegatives(x, slack - 1.0);
  }

  lemma ScaledWithin(fp: Format, e: nat, s: Sample, w: Workload, target: u64, lo: nat, hi: nat)
    requires fp.IsNearest() && e <= 63 && s.iterations == Pow2(e) && Costs(s, lo, hi)
    requires 0 < lo && 0 < hi && 0 < s.elapsed < target && NotAbove(s.iterations, w, target, lo, Slack(fp))
    ensures NotAbove(Choose(fp, s, target), w, target, lo, Slack(fp))
    ensures GuardIsClear(fp, target, lo) ==> NotBelow(Choose(fp, s, target), target, hi, Slack(fp))
  {
    var scaled := Scaled(fp, s.iterations, target, s.elapsed);
    ScaledNonNegative(fp, s.iterations, target, s.elapsed);
    ChosenFrom(fp, s, target);
    CostsAsReal(s, lo, hi);
    assert s.elapsed > 0 && s.iterations > 0 && Slack(fp) > 1.0 && fp.IsRounding();
    var c, t, el := s.iterations as real, target as real, s.elapsed as real;
    hide *;
    ScaledRelative(fp, e, target, s.elapsed);
    QuotientNotAbove(scaled, c, t, el, lo as real, Slack(fp));
    QuotientNotBelow(scaled, c, t, el, hi as real, Slack(fp));
    if scaled < fp.round(U64_MAX as real) {
      FloorWithin(scaled, Choose(fp, s, target), w, target, lo, hi, Slack(fp));
    } else if GuardIsClear(fp, target, lo) {
      GuardHolds(fp, scaled, target, lo);
    }
  }

  lemma CostsAsReal(s: Sample, lo: nat, hi: nat)
    requires Costs(s, lo, hi)
    ensures Times(lo as real, s.iterations as real) <= s.elapsed as real <= Times(hi as real, s.iterations as real)
  {
    ProductAsReal(lo, s.iterations);
    ProductAsReal(hi, s.iterations);
  }

  lemma ChosenFrom(fp: Format, s: Sample, target: u64)
    requires fp.IsRounding() && 0 < s.elapsed < target && s.iterations > 0
    ensures var scaled, n := Scaled(fp, s.iterations, target, s.elapsed), Choose(fp, s, target);
            n == if scaled < fp.round(U64_MAX as real) then (if scaled.Floor == 0 then 1 else scaled.Floor) else s.iterations
  {
  }

  lemma QuotientNotAbove(s: real, c: real, t: real, el: real, lo: real, slack: real)
    requires IsRelative(s, Times(c, t), el, slack) && c >= 1.0 && Times(lo, c) <= el && s >= 0.0
    ensures s <= 1.0 || Times(lo, s) <= Times(slack, t)
  {
    RealProductLe(s, lo * c, el);
    assert s * (lo * c) == c * (lo * s) && slack * (c * t) == c * (slack * t);
    CancelFactor(c, lo * s, slack * t);
  }

  lemma QuotientNotBelow(s: real, c: real, t: real, el: real, hi: real, slack: real)
    requires IsRelative(s, Times(c, t), el, slack) && c >= 1.0 && el <= Times(hi, c) && s >= 0.0 && slack > 1.0 && hi > 0.0
    ensures t <= Times(slack, Times(hi, s)) || t <= Times(slack, hi)
  {
    RealProductLe(s, el, hi * c);
    RealProductLe(slack, s * el, s * (hi * c));
    RealProductLe(slack, el, hi * c);
    assert slack * (s * (hi * c)) == c * (slack * (hi * s)) && slack * (hi * c) == c * (slack * hi);
    CancelFactor(c, t, slack * (hi * s));
    CancelFactor(c, t, slack * hi);
  }

  lemma FloorWithin(s: real, n: nat, w: Workload, target: u64, lo: nat, hi: nat, slack: real)
    requires s >= 0.0 && lo > 0 && hi > 0 && slack > 1.0 && n == if s.Floor == 0 then 1 else s.Floor
    requires s <= 1.0 || Times(lo as real, s) <= Times(slack, target as real)
    requires target as real <= Times(slack, Times(hi as real, s)) || target as real <= Times(slack, hi as real)
    ensures NotAbove(n, w, target, lo, slack) && NotBelow(n, target, hi, slack)
  {
    StartIsPow2(w);
    assert n <= 1 || n as real <= s;
    assert (n + 1) as real > s && (n + 1) as real > 1.0;
    hide Times, StartCount;
    if n > 1 {
      TimesLe(lo as real, n as real, s);
    }
    LessThanNext(hi as real, s, (n + 1) as real, slack);
  }

  lemma TimesLe(c: real, x: real, y: real)
    requires c >= 0.0 && x <= y
    ensures Times(c, x) <= Times(c, y)
  {
    RealProductLe(c, x, y);
  }

  lemma LessThanNext(h: real, s: real, next: real, slack: real)
    requires h > 0.0 && slack > 1.0 && s < next && 1.0 < next
    ensures Times(slack, Times(h, s)) < Times(slack, Times(h, next)) && Times(slack, h) < Times(slack, Times(h, next))
  {
    ProductOrder(s, next, h);
    ProductOrder(1.0, next, h);
    ProductOrder(h * s, h * next, slack);
    ProductOrder(h, h * next, slack);
  }

  /** Only a quotient near the largest word is discarded. */
  lemma GuardHolds(fp: Format, s: real, target: u64, lo: nat)
    requires fp.IsNearest() && s >= fp.round(U64_MAX as real) && lo > 0
    requires s <= 1.0 || Times(lo as real, s) <= Times(Slack(fp), target as real)
    ensures !GuardIsClear(fp, target, lo)
  {
    RoundedLargestWord(fp);
    FactorsOf(fp);
    assert Slack(fp) > 1.0;
    var a := Down(fp);
    RoundBetween(fp, U64_MAX as real);
    assert Times(a, U64_MAX as real) <= s && 1.0 <= Times(Slack(fp), a);
    assert s > 1.0;
    hide Slack, Down;
    DiscardedMeans(a, Slack(fp), lo as real, U64_MAX as real, s, target as real);
  }

  lemma DiscardedMeans(a: real, slack: real, l: real, u: real, s: real, t: real)
    requires l >= 0.0 && u >= 0.0 && slack > 1.0
    requires Times(a, u) <= s && 1.0 <= Times(slack, a) && Times(l, s) <= Times(slack, t)
    ensures Times(l, u) <= Times(slack, Times(slack, t))
  {
    var lu, sa := l * u, slack * a;
    ProductOfNonNegatives(l, u);
    RealProductLe(l, a * u, s);
    RealProductLe(slack, l * (a * u), slack * t);
    RealProductLe(lu, 1.0, sa);
    assert slack * (l * (a * u)) == lu * sa;
  }

  /** The guard is clear for every target of the command line if numbers have at least 53 bits. */
  lemma MillisecondsAreClear(fp: Format, target: u64, lo: nat)
    requires fp.precision >= 53 && target % 1_000_000 == 0 && lo > 0
    ensures GuardIsClear(fp, target, lo)
  {
    Pow2Monotone(53, fp.precision);
    Pow2Of53();
    var u := 1.0 / Pow2(fp.precision) as real;
    DivLe(1.0, Pow2(fp.precision) as real, 1.0 / 9007199254740992.0);
    assert Slack(fp) == 1.0 + 5.0 * u;
    hide Slack, Pow2;
    TwiceSlack(u, Slack(fp), target as real);
    RealProductLe(U64_MAX as real, 1.0, lo as real);
  }

  lemma Pow2Of53()
    ensures Pow2(53) == 9007199254740992
  {
    assert Pow2(16) == 65536 && Pow2(5) == 32;
    Pow2Add(16, 16);
    Pow2Add(32, 16);
    Pow2Add(48, 5);
  }

  lemma TwiceSlack(u: real, v: real, t: real)
    requires 0.0 < u <= 1.0 / 9007199254740992.0 && v == 1.0 + 5.0 * u && 0.0 <= t <= 18446744073709000000.0
    ensures Times(v, Times(v, t)) < U64_MAX as real
  {
    SquareOfSlack(v, 5.0 * u);
    SlackTwice(u, v, t);
    hide Times;
    TimesLe(t, u, 1.0 / 9007199254740992.0);
    Fraction(t);
  }

  lemma Fraction(t: real)
    ensures Times(t, 1.0 / 9007199254740992.0) == t / 9007199254740992.0
  {
  }

  lemma SlackTwice(u: real, v: real, t: real)
    requires Times(v, v) <= 1.0 + 35.0 * u && t >= 0.0
    ensures Times(v, Times(v, t)) <= t + 35.0 * Times(t, u)
  {
    RealProductLe(t, v * v, 1.0 + 35.0 * u);
    assert v * (v * t) == t * (v * v);
    assert t * (1.0 + 35.0 * u) == t + 35.0 * (t * u);
  }

  lemma SquareOfSlack(v: real, d: real)
    requires 0.0 < d <= 5.0 && v == 1.0 + d
    ensures Times(v, v) <= 1.0 + 7.0 * d
  {
    SquareAtMostFivefold(d);
    assert Times(v, v) == 1.0 + 2.0 * d + d * d;
  }

  lemma SquareAtMostFivefold(d: real)
    requires 0.0 < d <= 5.0
    ensures d * d <= 5.0 * d
  {
  }

  /** On the command line a target is a number of milliseconds, and there the guard never
      misfires: every calibration lands in the interval, exactly if the format holds the target
      and up to the slack if it does not. */
  lemma CommandLineTarget(t: seq<Sample>, w: Workload, target: u64, fp: Format, lo: nat, hi: nat)
    requires target % 1_000_000 == 0 && fp.IsNearest()
    requires IsSearch(t, StartCount(w), CountedSize(w), target) && 0 < lo <= hi && CostsBetween(t, lo, hi)
    ensures !GuardMisfires(w, target, lo, hi)
    ensures target < Pow2(fp.precision) ==>
              && Sandwiched(Choose(fp, Last(t), target), w, target, lo, hi)
              && (lo == hi ==> Choose(fp, Last(t), target) == Max(StartCount(w), target / lo))
    ensures NotAbove(Choose(fp, Last(t), target), w, target, lo, Slack(fp))
    ensures fp.precision >= 53 ==> NotBelow(Choose(fp, Last(t), target), target, hi, Slack(fp))
  {
    SandwichWithSlack(t, w, target, fp, lo, hi);
    if fp.precision >= 53 {
      MillisecondsAreClear(fp, target, lo);
    }
    if target < Pow2(fp.precision) {
      Sandwich(t, w, target, fp, lo, hi);
      if lo == hi {
        ExactExactlyWhen(w, target, fp, lo);
      }
    }
  }

  /** Under a fixed cost per iteration the whole search takes less than twice as long as
      its last sample. */
  lemma SearchTime(t: seq<Sample>, start: nat, size: u64, target: u64, c: nat)
    requires IsSearch(t, start, size, target) && CostsBetween(t, c, c)
    ensures TotalElapsed(t) == 2 * Last(t).elapsed - c * start
  {
    SearchCost(t, start, size, target);
    ElapsedIsCost(t, c);
    assert Costs(Last(t), c, c);
    Distribute(c, Last(t).iterations, start);
  }

  lemma Distribute(c: int, n: int, m: int)
    ensures c * (2 * n - m) == 2 * (c * n) - c * m
  {
  }

  lemma {:induction false} ElapsedIsCost(t: seq<Sample>, c: nat)
    requires CostsBetween(t, c, c)
    ensures TotalElapsed(t) == c * TotalIterations(t)
  {
    if t != [] {
      assert Costs(t[0], c, c);
      assert CostsBetween(t[1..], c, c);
      ElapsedIsCost(t[1..], c);
    }
  }
}
