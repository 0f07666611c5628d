/** The TLS backend of backends/openssl_tls.c: `transfer_once` pushes a message through a
    connected pair in records, and verification and batches are built on it. */
module TlsBackend {
  import opened Prelude
  import opened Fixture
  import opened TlsHandshake

  /** The most a TLS record carries (section 5.1 of RFC 8446). */
  const RECORD_SIZE: nat := 16384

  /** The client-to-server half of an established connection: a reliable FIFO with room for
      `capacity` bytes. A write puts in all of its data or reports an error; a read takes out
      any positive number of the bytes there are, up to its limit. */
  class Channel {
    const capacity: nat
    var inFlight: seq<byte>
    ghost var writes: seq<nat>
    ghost var peak: nat

    constructor (capacity: nat)
      ensures this.capacity == capacity && inFlight == [] && writes == [] && peak == 0
    {
      this.capacity, inFlight, writes, peak := capacity, [], [], 0;
    }

    method Write(data: seq<byte>) returns (result: int)
      modifies this
      ensures |old(inFlight)| + |data| <= capacity ==>
                && result == |data| && inFlight == old(inFlight) + data
                && writes == old(writes) + [|data|] && peak == Max(old(peak), |inFlight|)
      ensures |old(inFlight)| + |data| > capacity ==> result == -1 && unchanged(this)
    {
      if |inFlight| + |data| > capacity {
        return -1;
      }
      inFlight := inFlight + data;
      writes := writes + [|data|];
      peak := Max(peak, |inFlight|);
      return |data|;
    }

    method Read(buffer: array<byte>, at: nat, limit: nat) returns (result: int)
      requires at + limit <= buffer.Length && limit > 0
      modifies this`inFlight, buffer
      ensures old(inFlight) == [] ==> result == -1 && inFlight == [] && buffer[..] == old(buffer[..])
      ensures old(inFlight) != [] ==>
                && 1 <= result <= limit && result <= |old(inFlight)|
                && inFlight == old(inFlight)[result..]
                && buffer[..] == old(buffer[..at]) + old(inFlight)[..result] + old(buffer[at + result..])
    {
      if inFlight == [] {
        return -1;
      }
      var k: nat :| 1 <= k <= limit && k <= |inFlight|;
      forall i | 0 <= i < k { buffer[at + i] := inFlight[i]; }
      inFlight := inFlight[k..];
      return k;
    }
  }

  /** The sizes of the writes that carry n bytes. */
  function Chunks(n: nat): seq<nat> {
    if n == 0 then [] else [Min(n, RECORD_SIZE)] + Chunks(n - Min(n, RECORD_SIZE))
  }

  function Sum(s: seq<nat>): nat {
    if s == [] then 0 else s[0] + Sum(s[1..])
  }

  /** ceil(n / 16384) writes, none larger than a record, n bytes in all. */
  lemma {:induction false} ChunksCover(n: nat)
    ensures |Chunks(n)| == CeilDiv(n, 16384)
    ensures Sum(Chunks(n)) == n
    ensures forall i :: 0 <= i < |Chunks(n)| ==> 0 < Chunks(n)[i] <= 16384
  {
    if n > 0 {
      var k := Min(n, RECORD_SIZE);
      ChunksCover(n - k);
      assert Chunks(n)[1..] == Chunks(n - k);
    }
  }

  function Repeated(s: seq<nat>, k: nat): seq<nat> {
    if k == 0 then [] else Repeated(s, k - 1) + s
  }

  lemma OneMoreTime(writes: seq<nat>, s: seq<nat>, k: nat)
    ensures writes + Repeated(s, k + 1) == (writes + Repeated(s, k)) + s
  {
  }

  lemma {:induction false} SumOfConcat(a: seq<nat>, b: seq<nat>)
    ensures Sum(a + b) == Sum(a) + Sum(b)
  {
    if a == [] {
      assert a + b == b;
    } else {
      assert (a + b)[1..] == a[1..] + b;
      SumOfConcat(a[1..], b);
    }
  }

  lemma {:induction false} RepeatedCounts(s: seq<nat>, k: nat)
    ensures |Repeated(s, k)| == k * |s| && Sum(Repeated(s, k)) == k * Sum(s)
  {
    if k > 0 {
      RepeatedCounts(s, k - 1);
      SumOfConcat(Repeated(s, k - 1), s);
    }
  }

  /** k transfers of n bytes: k times as many writes and bytes as one. */
  lemma WritesOfBatch(writes: seq<nat>, n: nat, k: nat)
    ensures var after := writes + Repeated(Chunks(n), k);
            |after| == |writes| + k * CeilDiv(n, 16384) && Sum(after) == Sum(writes) + k * n
  {
    ChunksCover(n);
    RepeatedCounts(Chunks(n), k);
    SumOfConcat(writes, Repeated(Chunks(n), k));
  }

  /** Another write takes the first chunk of what is left. */
  lemma NextChunk(writes: seq<nat>, n: nat)
    requires n > 0
    ensures var chunk := Min(n, RECORD_SIZE);
            writes + Chunks(n) == (writes + [chunk]) + Chunks(n - chunk)
  {
  }

  // ----- receiving

  /** A buffer that held `was` after the first `at` bytes of what is sent have arrived. */
  ghost function Filled(sent: seq<byte>, was: seq<byte>, at: nat): (r: seq<byte>)
    requires at <= |sent| == |was|
    ensures |r| == |was|
  {
    sent[..at] + was[at..]
  }

  lemma FilledEnds(sent: seq<byte>, was: seq<byte>, size: nat)
    requires size <= |sent| == |was|
    ensures Filled(sent, was, 0) == was && Filled(sent, was, size) == sent[..size] + was[size..]
  {
  }

  lemma SameEnd(front: seq<byte>, was: seq<byte>, size: nat)
    requires |front| == size <= |was|
    ensures (front + was[size..])[size..] == was[size..]
  {
  }

  lemma FilledPrefix(sent: seq<byte>, was: seq<byte>, at: nat)
    requires at <= |sent| == |was|
    ensures Filled(sent, was, at)[..at] == sent[..at]
  {
  }

  lemma FilledFurther(sent: seq<byte>, was: seq<byte>, at: nat, to: nat)
    requires at <= to <= |sent| == |was|
    ensures sent[..to] + Filled(sent, was, at)[to..] == Filled(sent, was, to)
  {
  }

  /** What one read of k bytes does to the buffer and to the bytes in flight. */
  lemma ReadFills(sent: seq<byte>, was: seq<byte>, at: nat, k: nat, end: nat)
    requires at + k <= end <= |sent| == |was|
    ensures var buffer, inFlight := Filled(sent, was, at), sent[at..end];
            && buffer[..at] + inFlight[..k] + buffer[at + k..] == Filled(sent, was, at + k)
            && inFlight[k..] == sent[at + k..end]
  {
  }

  method ReadChunk(channel: Channel, buffer: array<byte>, offset: nat, chunk: nat, ghost sent: seq<byte>, ghost was: seq<byte>)
    returns (ok: bool)
    requires offset + chunk <= |sent| == |was| == buffer.Length
    requires channel.inFlight == sent[offset..offset + chunk] && buffer[..] == Filled(sent, was, offset)
    modifies buffer, channel`inFlight
    ensures ok && channel.inFlight == []
    ensures buffer[..] == Filled(sent, was, offset + chunk)
  {
    hide Filled;
    var got := 0;
    while got < chunk
      invariant got <= chunk
      invariant channel.inFlight == sent[offset + got..offset + chunk]
      invariant buffer[..] == Filled(sent, was, offset + got)
    {
      ghost var at := offset + got;
      var result := channel.Read(buffer, offset + got, chunk - got);
      if result <= 0 {
        return false;
      }
      ReadFills(sent, was, at, result, offset + chunk);
      got := got + result;
    }
    return true;
  }

  datatype Benchmark = HandshakeBenchmark | TransferBenchmark

  /** Everything outside the backend: how its peers behave, what they negotiate, how much the
      connection buffers, whether memory and contexts were allocated and the library accepted
      the configuration, and whether it can make pairs. */
  datatype Environment = Environment(client: Peer, server: Peer, pipeCapacity: nat, streamCapacity: nat,
                                     negotiated: string, isTls13: bool, configured: bool, pairsAvailable: bool) {
    predicate Connects() {
      pairsAvailable && Drive(Net(client, server, [], []), false, false, pipeCapacity, 10000).ok
    }

    predicate Matches(cipher: string) { isTls13 && negotiated == cipher }

    /** Room for the first record, which is the largest. */
    predicate Carries(size: nat) { size == 0 || Min(size, RECORD_SIZE) <= streamCapacity }
  }

  function FixtureMessage(size: nat): seq<byte> { Pattern(29, 11, size) }

  /** A message with a byte from elsewhere passes the comparison at the end of a batch only if the
      two positions are a multiple of 256 apart. */
  lemma MisplacedByteIsSeen(size: nat, received: seq<byte>, i: nat, j: nat)
    requires i < |received| == size && j < size && received[i] == FixtureMessage(size)[j]
    ensures received == FixtureMessage(size) ==> i % 256 == j % 256
  {
    MisplacementIsSeen(29, 11, received, i, j);
  }

  // ----- commands as functions of the buffers

  datatype Setup = Setup(env: Environment, benchmark: Benchmark, cipher: string, message: seq<byte>)

  datatype View = View(received: seq<byte>, checksum: byte)

  predicate Shaped(setup: Setup, v: View) { |v.received| == Max(|setup.message|, 1) }

  function Delivered(setup: Setup, v: View): seq<byte>
    requires Shaped(setup, v)
  {
    setup.message + v.received[|setup.message|..]
  }

  /** Whether the command succeeds, and what it leaves behind if it does. */
  function Execute(setup: Setup, v: View, c: Command): Option<View>
    requires Shaped(setup, v)
  {
    var m := |setup.message|;
    match (setup.benchmark, c)
    case (HandshakeBenchmark, Verify) =>
      if setup.env.Connects() && setup.env.Matches(setup.cipher) then Some(v) else None
    case (HandshakeBenchmark, Batch(n)) =>
      if n == 0 || setup.env.Connects() then Some(v) else None
    case (TransferBenchmark, Verify) =>
      if setup.env.Matches(setup.cipher) && setup.env.Carries(m) then Some(v.(received := Delivered(setup, v))) else None
    case (TransferBenchmark, Batch(n)) =>
      if n > 0 && !setup.env.Carries(m) then None
      else
        var received := if n == 0 then v.received else Delivered(setup, v);
        if received[..m] != setup.message then None
        else Some(View(received, Xor(v.checksum, FinalByte(m, received))))
  }

  function ExecuteAll(setup: Setup, v: View, cs: seq<Command>): (r: Option<View>)
    requires Shaped(setup, v)
    ensures r.Some? ==> Shaped(setup, r.value)
  {
    if cs == [] then Some(v)
    else match ExecuteAll(setup, v, cs[..|cs| - 1])
         case None => None
         case Some(w) => Execute(setup, w, cs[|cs| - 1])
  }

  /** After a verification, no run of a transfer benchmark ever fails: the message arrives in
      full every time, whatever the number of iterations, and the checksum keeps the parity. */
  lemma {:induction false} TransferNeverFails(setup: Setup, v: View, cs: seq<Command>)
    requires Shaped(setup, v) && v.checksum == 0 && setup.benchmark.TransferBenchmark?
    requires setup.env.Matches(setup.cipher) && setup.env.Carries(|setup.message|)
    requires cs != [] && cs[0].Verify?
    ensures var r := ExecuteAll(setup, v, cs);
            var m := |setup.message|;
            && r.Some?
            && r.value.received == setup.message + v.received[m..]
            && r.value.checksum ==
                 if |set i | 0 <= i < |cs| && cs[i].Batch?| % 2 == 0 then 0
                 else if m == 0 then v.received[0] else setup.message[m - 1]
  {
    BatchCountCounts(cs);
    RunAccumulates(setup, v, cs);
    XorTimesParity(FinalByte(|setup.message|, Delivered(setup, v)), BatchCount(cs));
  }

  lemma {:induction false} RunAccumulates(setup: Setup, v: View, cs: seq<Command>)
    requires Shaped(setup, v) && v.checksum == 0 && setup.benchmark.TransferBenchmark?
    requires setup.env.Matches(setup.cipher) && setup.env.Carries(|setup.message|)
    requires cs != [] && cs[0].Verify?
    ensures var after := Delivered(setup, v);
            ExecuteAll(setup, v, cs) == Some(View(after, XorTimes(FinalByte(|setup.message|, after), BatchCount(cs))))
  {
    hide Xor;
    var front, c := cs[..|cs| - 1], cs[|cs| - 1];
    var m, after := |setup.message|, Delivered(setup, v);
    assert after[..m] == setup.message;
    if front == [] {
      assert BatchCount(cs) == 0;
    } else {
      assert front[0] == cs[0];
      RunAccumulates(setup, v, front);
      var w := ExecuteAll(setup, v, front).value;
      assert Delivered(setup, w) == after;
    }
  }

  // ----- the object

  class Backend {
    const env: Environment
    const benchmark: Benchmark
    const cipher: string
    const size: nat
    const plaintext: array<byte>
    const received: array<byte>
    const channel: Channel
    const contexts: Contexts
    var checksum: byte

    ghost predicate Allocated() {
      && plaintext != received && plaintext.Length == received.Length == Max(size, 1)
      && channel.capacity == env.streamCapacity
    }

    ghost predicate Valid()
      reads plaintext, channel
    {
      && Allocated() && channel.inFlight == []
      && plaintext[..size] == FixtureMessage(size)
    }

    ghost function TheSetup(): Setup { Setup(env, benchmark, cipher, FixtureMessage(size)) }

    ghost function TheView(): View
      reads this, received
    {
      View(received[..], checksum)
    }

    constructor Allocate(env: Environment, benchmark: Benchmark, cipher: string, size: nat)
      ensures Allocated() && fresh(plaintext) && fresh(received) && fresh(channel) && fresh(contexts)
      ensures channel.inFlight == [] && channel.writes == [] && channel.peak == 0 && contexts.pairs == 0 && checksum == 0
      ensures this.env == env && this.benchmark == benchmark && this.cipher == cipher && this.size == size
    {
      this.env, this.benchmark, this.cipher, this.size := env, benchmark, cipher, size;
      plaintext, received := new byte[Max(size, 1)], new byte[Max(size, 1)];
      channel := new Channel(env.streamCapacity);
      contexts := new Contexts();
      checksum := 0;
    }

    /** The message every backend starts with. */
    method FillFixture()
      requires Allocated()
      modifies plaintext
      ensures plaintext[..size] == FixtureMessage(size)
      ensures forall i :: 0 <= i < size ==> plaintext[i] == (i * 29 + 11) % 256
    {
      PatternBytes(29, 11, size);
      hide PatternByte;
      var i := 0;
      while i < size
        invariant i <= size
        invariant forall j :: 0 <= j < i ==> plaintext[j] == PatternByte(29, 11, j)
      {
        plaintext[i] := PatternByte(29, 11, i);
        i := i + 1;
      }
      assert plaintext[..size] == FixtureMessage(size);
      assert forall i :: 0 <= i < size ==> plaintext[i] == plaintext[..size][i];
    }

    /** The inner loop of `transfer_once`: short reads until the chunk is complete. */
    method Drain(offset: nat, chunk: nat) returns (ok: bool)
      requires Allocated() && offset + chunk <= size
      requires channel.inFlight == plaintext[offset..offset + chunk]
      requires received[..offset] == plaintext[..offset]
      modifies received, channel`inFlight
      ensures ok && channel.inFlight == []
      ensures received[..] == plaintext[..offset + chunk] + old(received[offset + chunk..])
    {
      ghost var sent, was := plaintext[..], received[..];
      assert sent[offset..offset + chunk] == plaintext[offset..offset + chunk];
      assert was == Filled(sent, was, offset);
      ok := ReadChunk(channel, received, offset, chunk, sent, was);
    }

    /** One write and the reads that take it out again. */
    method TransferChunk(offset: nat, chunk: nat, ghost was: seq<byte>) returns (ok: bool)
      requires Allocated() && offset + chunk <= size && channel.inFlight == [] && |was| == received.Length
      requires received[..] == Filled(plaintext[..], was, offset)
      modifies received, channel
      ensures channel.inFlight == []
      ensures ok <==> chunk <= channel.capacity
      ensures ok ==> received[..] == Filled(plaintext[..], was, offset + chunk)
      ensures ok ==> channel.writes == old(channel.writes) + [chunk] && channel.peak == Max(old(channel.peak), chunk)
      ensures !ok ==> received[..] == old(received[..])
    {
      ghost var sent := plaintext[..];
      FilledPrefix(sent, was, offset);
      FilledFurther(sent, was, offset, offset + chunk);
      hide Filled;
      var result := channel.Write(plaintext[offset..offset + chunk]);
      if result != chunk {
        return false;
      }
      assert received[..offset] == sent[..offset] && plaintext[..] == sent;
      ok := Drain(offset, chunk);
    }

    /** One message through the pair. It succeeds exactly when the connection holds a record;
        then the message has arrived, nothing is left in flight, and it took one write for
        every 16384 bytes begun, never with more than one record in flight. */
    method TransferOnce() returns (ok: bool)
      requires Valid()
      modifies received, channel
      ensures Valid()
      ensures ok <==> size == 0 || Min(size, 16384) <= env.streamCapacity
      ensures ok ==> received[..] == FixtureMessage(size) + old(received[size..])
      ensures ok ==> channel.writes == old(channel.writes) + Chunks(size)
      ensures ok ==> channel.peak <= Max(old(channel.peak), 16384)
      ensures !ok ==> received[..] == old(received[..])
    {
      ghost var sent, was, written := plaintext[..], received[..], channel.writes;
      FilledEnds(sent, was, size);
      assert sent[..size] == plaintext[..size];
      hide Filled, FixtureMessage, Chunks;
      var offset := 0;
      while offset < size
        invariant offset <= size && Valid() && plaintext[..] == sent
        invariant offset > 0 ==> env.Carries(size)
        invariant received[..] == Filled(sent, was, offset)
        invariant written + Chunks(size) == channel.writes + Chunks(size - offset)
        invariant channel.peak <= Max(old(channel.peak), RECORD_SIZE)
      {
        var chunk := size - offset;
        if chunk > RECORD_SIZE {
          chunk := RECORD_SIZE;
        }
        NextChunk(channel.writes, size - offset);
        ok := TransferChunk(offset, chunk, was);
        if !ok {
          return false;
        }
        offset := offset + chunk;
      }
      return true;
    }

    /** One handshake whose parameters are compared, or one transfer whose result is. */
    method Verify() returns (ok: bool)
      requires Valid()
      modifies received, channel, contexts
      ensures Valid()
      ensures var r := Execute(TheSetup(), old(TheView()), Command.Verify);
              ok == r.Some? && (ok ==> TheView() == r.value)
      ensures ok ==> env.isTls13 && env.negotiated == cipher
      ensures ok && benchmark == HandshakeBenchmark ==>
                contexts.pairs == old(contexts.pairs) + 1 && channel.writes == old(channel.writes)
      ensures ok && benchmark == TransferBenchmark ==>
                && contexts.pairs == old(contexts.pairs)
                && channel.writes == old(channel.writes) + Chunks(size)
                && received[..size] == plaintext[..size]
    {
      if benchmark == HandshakeBenchmark {
        var pair := PairCreate(contexts, env.client, env.server, env.pipeCapacity, env.pairsAvailable);
        return pair != null && env.Matches(cipher);
      }
      if !env.Matches(cipher) {
        return false;
      }
      ok := TransferOnce();
      if !ok || plaintext[..size] != received[..size] {
        return false;
      }
      return true;
    }

    /** As many pairs or transfers as there are iterations. A transfer batch compares what has
        arrived once, at its end, and adds the last byte of it to the checksum. */
    method RunBatch(iterations: nat) returns (ok: bool)
      requires Valid()
      modifies this`checksum, received, channel, contexts
      ensures Valid()
      ensures var r := Execute(TheSetup(), old(TheView()), Batch(iterations));
              ok == r.Some? && (ok ==> TheView() == r.value)
      ensures !ok ==> checksum == old(checksum)
      ensures ok && benchmark == HandshakeBenchmark ==>
                && contexts.pairs == old(contexts.pairs) + iterations
                && channel.writes == old(channel.writes) && TheView() == old(TheView())
      ensures ok && benchmark == TransferBenchmark ==>
                && contexts.pairs == old(contexts.pairs)
                && channel.writes == old(channel.writes) + Repeated(Chunks(size), iterations)
                && |channel.writes| == |old(channel.writes)| + iterations * CeilDiv(size, 16384)
                && Sum(channel.writes) == Sum(old(channel.writes)) + iterations * size
                && received[..size] == plaintext[..size] && received[size..] == old(received[size..])
                && checksum == Xor(old(checksum), received[if size == 0 then 0 else size - 1])
    {
      if benchmark == HandshakeBenchmark {
        ok := RunHandshakes(iterations);
        return;
      }
      ok := RunTransfers(iterations);
      if !ok || plaintext[..size] != received[..size] {
        return false;
      }
      checksum := Xor(checksum, received[if size == 0 then 0 else size - 1]);
      WritesOfBatch(old(channel.writes), size, iterations);
    }

    method RunHandshakes(iterations: nat) returns (ok: bool)
      modifies contexts
      ensures ok <==> iterations == 0 || env.Connects()
      ensures ok ==> contexts.pairs == old(contexts.pairs) + iterations
    {
      hide Drive;
      var i := 0;
      while i < iterations
        invariant i <= iterations && (i > 0 ==> env.Connects())
        invariant contexts.pairs == old(contexts.pairs) + i
      {
        var pair := PairCreate(contexts, env.client, env.server, env.pipeCapacity, env.pairsAvailable);
        if pair == null {
          return false;
        }
        i := i + 1;
      }
      return true;
    }

    method RunTransfers(iterations: nat) returns (ok: bool)
      requires Valid()
      modifies received, channel
      ensures Valid()
      ensures ok <==> iterations == 0 || env.Carries(size)
      ensures ok ==> received[..] == if iterations == 0 then old(received[..]) else FixtureMessage(size) + old(received[size..])
      ensures ok ==> channel.writes == old(channel.writes) + Repeated(Chunks(size), iterations)
    {
      ghost var was, written := received[..], channel.writes;
      hide Chunks, FixtureMessage, Repeated;
      var i := 0;
      while i < iterations
        invariant i <= iterations && Valid()
        invariant i > 0 ==> env.Carries(size)
        invariant received[..] == if i == 0 then was else FixtureMessage(size) + was[size..]
        invariant channel.writes == written + Repeated(Chunks(size), i)
      {
        OneMoreTime(written, Chunks(size), i);
        ok := TransferOnce();
        if !ok {
          return false;
        }
        SameEnd(FixtureMessage(size), was, size);
        i := i + 1;
      }
      return true;
    }
  }

  /** `ofb_tls_backend_create`: a backend exactly when the message is not too long, allocation
      and configuration work and, for transfers, the handshake succeeds. */
  method Create(env: Environment, benchmark: Benchmark, cipher: string, size: nat) returns (backend: Backend?)
    ensures backend != null <==>
            && size <= 0x7FFF_FFFF && env.configured
            && (benchmark == TransferBenchmark ==>
                env.pairsAvailable
                && Drive(Net(env.client, env.server, [], []), false, false, env.pipeCapacity, 10000).ok)
    ensures backend != null ==>
            && fresh(backend) && fresh(backend.plaintext) && fresh(backend.received)
            && fresh(backend.channel) && fresh(backend.contexts)
            && backend.Valid() && backend.checksum == 0
            && backend.TheSetup() == Setup(env, benchmark, cipher, FixtureMessage(size))
            && backend.size == size && (forall i :: 0 <= i < size ==> backend.plaintext[i] == (i * 29 + 11) % 256)
            && backend.contexts.pairs == (if benchmark == TransferBenchmark then 1 else 0) && backend.channel.writes == []
  {
    if size > INT_MAX || !env.configured {
      return null;
    }
    var b := new Backend.Allocate(env, benchmark, cipher, size);
    b.FillFixture();
    hide FixtureMessage, Drive;
    if benchmark == TransferBenchmark {
      var pair := PairCreate(b.contexts, env.client, env.server, env.pipeCapacity, env.pairsAvailable);
      if pair == null {
        return null;
      }
    }
    return b;
  }
}
