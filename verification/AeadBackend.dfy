/** The AEAD backend of backends/openssl_aead.c: one object whose output, tag and checksum
    are overwritten in place by verification and by timed batches.

    The cipher is any AEAD in the sense of section 2 of RFC 5116, and every library
    call may fail; a failing call leaves debris in the output buffer. */
module AeadBackend {
  import opened Prelude
  import opened Fixture

  const TAG_SIZE: nat := 16
  const NONCE_SIZE: nat := 12
  const KEY_SIZE: nat := 32

  datatype Operation = Seal | Open

  datatype Sealed = Sealed(ciphertext: seq<byte>, tag: seq<byte>)

  /** seal(key, nonce, aad, plaintext) and open(key, nonce, aad, ciphertext, tag). */
  datatype Cipher = Cipher(
    seal: (seq<byte>, seq<byte>, seq<byte>, seq<byte>) -> Sealed,
    open: (seq<byte>, seq<byte>, seq<byte>, seq<byte>, seq<byte>) -> Option<seq<byte>>)

  predicate OpensWhatItSealed(c: Cipher, key: seq<byte>, nonce: seq<byte>, aad: seq<byte>, plaintext: seq<byte>) {
    var s := c.seal(key, nonce, aad, plaintext);
    && |s.ciphertext| == |plaintext| && |s.tag| == TAG_SIZE
    && c.open(key, nonce, aad, s.ciphertext, s.tag) == Some(plaintext)
  }

  ghost predicate IsAead(c: Cipher) {
    forall key, nonce, aad, plaintext :: OpensWhatItSealed(c, key, nonce, aad, plaintext)
  }

  /** fails(i) says whether the i-th encryption or decryption reports an error; debris is what
      a failing call leaves in the buffer it was writing. Those that work are counted. */
  class Library {
    const aes128: Cipher
    const aes256: Cipher
    const chacha: Cipher
    const fails: nat -> bool
    const debris: (nat, nat) -> byte
    var calls: nat
    ghost var seals: nat
    ghost var opens: nat

    constructor (aes128: Cipher, aes256: Cipher, chacha: Cipher, fails: nat -> bool, debris: (nat, nat) -> byte)
      requires IsAead(aes128) && IsAead(aes256) && IsAead(chacha)
      ensures Lawful() && calls == 0 && seals == 0 && opens == 0
    {
      this.aes128, this.aes256, this.chacha := aes128, aes256, chacha;
      this.fails, this.debris, calls, seals, opens := fails, debris, 0, 0, 0;
    }

    ghost predicate Lawful() { IsAead(aes128) && IsAead(aes256) && IsAead(chacha) }

    ghost predicate NoFaults(from: nat, to: nat) { forall i :: from <= i < to ==> !fails(i) }

    function FindCipher(name: string): Option<Cipher> {
      if name == "AES-128-GCM" then Some(aes128)
      else if name == "AES-256-GCM" then Some(aes256)
      else if name == "CHACHA20-POLY1305" then Some(chacha)
      else None
    }
  }

  function FixtureKey(): seq<byte> { seq(KEY_SIZE, i requires 0 <= i < KEY_SIZE => i + 1) }

  function FixtureNonce(): seq<byte> { seq(NONCE_SIZE, i requires 0 <= i < NONCE_SIZE => 0xa0 + i) }

  function FixturePlaintext(size: nat): seq<byte> { Pattern(31, 7, size) }

  /** A message with a byte from elsewhere passes the comparisons only if the two positions are
      a multiple of 256 apart. */
  lemma MisplacedByteIsSeen(size: nat, received: seq<byte>, i: nat, j: nat)
    requires i < |received| == size && j < size && received[i] == FixturePlaintext(size)[j]
    ensures received == FixturePlaintext(size) ==> i % 256 == j % 256
  {
    MisplacementIsSeen(31, 7, received, i, j);
  }

  // ----- what the object goes through, as values

  /** The parts that never change once the backend exists. */
  datatype Setup = Setup(operation: Operation, plaintext: seq<byte>, sealed: Sealed) {
    /** What every iteration of a batch leaves in the first bytes of the output. */
    function Result(): seq<byte> { if operation == Seal then sealed.ciphertext else plaintext }

    predicate Sound() { |sealed.ciphertext| == |plaintext| }
  }

  /** The parts that do. The output buffer is TAG_SIZE bytes longer than the message. */
  datatype View = View(output: seq<byte>, checksum: byte)

  function Overwrite(output: seq<byte>, front: seq<byte>): seq<byte>
    requires |front| <= |output|
  {
    front + output[|front|..]
  }

  predicate Shaped(setup: Setup, v: View) {
    setup.Sound() && |v.output| == |setup.plaintext| + TAG_SIZE
  }

  function Execute(setup: Setup, v: View, c: Command): View
    requires Shaped(setup, v)
  {
    match c
    case Verify => v.(output := Overwrite(v.output, setup.plaintext))
    case Batch(n) =>
      var output := if n == 0 then v.output else Overwrite(v.output, setup.Result());
      View(output, Xor(v.checksum, FinalByte(|setup.plaintext|, output)))
  }

  function ExecuteAll(setup: Setup, v: View, cs: seq<Command>): (r: View)
    requires Shaped(setup, v)
    ensures Shaped(setup, r)
  {
    if cs == [] then v
    else Execute(setup, ExecuteAll(setup, v, cs[..|cs| - 1]), cs[|cs| - 1])
  }

  /** The first m bytes of the output are the sealed or opened message whenever the last
      command was a batch of at least one iteration. The 16 bytes behind them never change. */
  lemma {:induction false} OutputAfterBatch(setup: Setup, v: View, cs: seq<Command>)
    requires Shaped(setup, v)
    ensures var m, r := |setup.plaintext|, ExecuteAll(setup, v, cs);
            && r.output[m..] == v.output[m..]
            && (cs != [] && cs[|cs| - 1].Batch? && cs[|cs| - 1].iterations > 0 ==>
                r.output[..m] == match setup.operation case Seal => setup.sealed.ciphertext case Open => setup.plaintext)
            && (cs != [] && cs[|cs| - 1].Verify? ==> r.output[..m] == setup.plaintext)
  {
    if cs != [] {
      OutputAfterBatch(setup, v, cs[..|cs| - 1]);
    }
  }

  /** The byte every batch of a run adds to the checksum. */
  function ResultByte(setup: Setup, v: View): byte
    requires Shaped(setup, v)
  {
    FinalByte(|setup.plaintext|, Overwrite(v.output, setup.Result()))
  }

  lemma {:induction false} ChecksumAccumulates(setup: Setup, v: View, cs: seq<Command>)
    requires Shaped(setup, v) && v.checksum == 0
    requires forall i :: 0 <= i < |cs| && cs[i].Batch? ==> cs[i].iterations > 0
    ensures ExecuteAll(setup, v, cs).checksum == XorTimes(ResultByte(setup, v), BatchCount(cs))
  {
    hide Xor;
    if cs != [] {
      var m, front, c := |setup.plaintext|, cs[..|cs| - 1], cs[|cs| - 1];
      ChecksumAccumulates(setup, v, front);
      if c.Batch? {
        OutputAfterBatch(setup, v, front);
        var before := ExecuteAll(setup, v, front);
        assert m == 0 ==> before.output[0] == before.output[m..][0] == v.output[m..][0] == v.output[0];
        assert FinalByte(m, Overwrite(before.output, setup.Result())) == ResultByte(setup, v);
      }
    }
  }

  /** The checksum only tells whether the number of batches was odd: over any run of
      verifications and non-empty batches it is 0 or the last byte of the ciphertext or plaintext,
      or for an empty message the byte the output begins with. */
  lemma ChecksumOfRun(setup: Setup, v: View, cs: seq<Command>)
    requires Shaped(setup, v) && v.checksum == 0
    requires forall i :: 0 <= i < |cs| && cs[i].Batch? ==> cs[i].iterations > 0
    ensures var last := |setup.plaintext| - 1;
            ExecuteAll(setup, v, cs).checksum ==
              if |set i | 0 <= i < |cs| && cs[i].Batch?| % 2 == 0 then 0
              else if last < 0 then v.output[0]
              else if setup.operation == Seal then setup.sealed.ciphertext[last] else setup.plaintext[last]
  {
    BatchCountCounts(cs);
    ChecksumAccumulates(setup, v, cs);
    XorTimesParity(ResultByte(setup, v), BatchCount(cs));
  }

  // ----- the object

  class Backend {
    const lib: Library
    const cipher: Cipher
    const operation: Operation
    const size: nat
    const aadSize: nat
    const key: array<byte>
    const nonce: array<byte>
    const tag: array<byte>
    const aad: array<byte>
    const plaintext: array<byte>
    const ciphertext: array<byte>
    const output: array<byte>
    var checksum: byte

    ghost function Buffers(): set<object> { {key, nonce, tag, aad, plaintext, ciphertext, output} }

    ghost predicate Separate() {
      && key != nonce && key != tag && key != aad && key != plaintext && key != ciphertext && key != output
      && nonce != tag && nonce != aad && nonce != plaintext && nonce != ciphertext && nonce != output
      && tag != aad && tag != plaintext && tag != ciphertext && tag != output
      && aad != plaintext && aad != ciphertext && aad != output
      && plaintext != ciphertext && plaintext != output && ciphertext != output
    }

    ghost predicate Allocated() {
      && Separate()
      && key.Length == KEY_SIZE && nonce.Length == NONCE_SIZE && tag.Length == TAG_SIZE
      && plaintext.Length == Max(size, 1) && aad.Length == Max(aadSize, 1)
      && ciphertext.Length == output.Length == size + TAG_SIZE
    }

    /** The secret inputs are the fixture and (ciphertext, tag) is their seal. */
    ghost predicate Valid()
      reads this, Buffers()
    {
      && Allocated() && IsAead(cipher)
      && key[..] == FixtureKey() && nonce[..] == FixtureNonce()
      && (forall i :: 0 <= i < aad.Length ==> aad[i] == 0)
      && plaintext[..size] == FixturePlaintext(size)
      && Sealed(ciphertext[..size], tag[..]) == cipher.seal(key[..], nonce[..], aad[..aadSize], plaintext[..size])
    }

    ghost function TheSetup(): Setup
      reads this, Buffers()
      requires Valid()
    {
      Setup(operation, plaintext[..size], Sealed(ciphertext[..size], tag[..]))
    }

    ghost function TheView(): View
      reads this, output
    {
      View(output[..], checksum)
    }

    constructor Allocate(lib: Library, cipher: Cipher, operation: Operation, size: nat, aadSize: nat)
      ensures Allocated() && fresh(Buffers()) && checksum == 0
      ensures this.lib == lib && this.cipher == cipher && this.operation == operation
      ensures this.size == size && this.aadSize == aadSize && forall i :: 0 <= i < aad.Length ==> aad[i] == 0
    {
      this.lib, this.cipher, this.operation, this.size, this.aadSize := lib, cipher, operation, size, aadSize;
      key, nonce, tag := new byte[KEY_SIZE], new byte[NONCE_SIZE], new byte[TAG_SIZE];
      aad := new byte[Max(aadSize, 1)](_ => 0);
      plaintext := new byte[Max(size, 1)];
      ciphertext := new byte[size + TAG_SIZE];
      output := new byte[size + TAG_SIZE];
      checksum := 0;
    }

    /** The message, key and nonce every backend starts with. */
    method FillFixture()
      requires Allocated()
      modifies plaintext, key, nonce
      ensures plaintext[..size] == FixturePlaintext(size) && key[..] == FixtureKey() && nonce[..] == FixtureNonce()
    {
      var i := 0;
      while i < size
        invariant i <= size
        invariant forall j :: 0 <= j < i ==> plaintext[j] == PatternByte(31, 7, j)
        modifies plaintext
      {
        plaintext[i] := PatternByte(31, 7, i);
        i := i + 1;
      }
      i := 0;
      while i < KEY_SIZE
        invariant i <= KEY_SIZE
        invariant forall j :: 0 <= j < i ==> key[j] == j + 1
        modifies key
      {
        key[i] := i + 1;
        i := i + 1;
      }
      i := 0;
      while i < NONCE_SIZE
        invariant i <= NONCE_SIZE
        invariant forall j :: 0 <= j < i ==> nonce[j] == 0xa0 + j
        modifies nonce
      {
        nonce[i] := 0xa0 + i;
        i := i + 1;
      }
      assert plaintext[..size] == FixturePlaintext(size);
    }

    /** `encrypt_once`: the ciphertext and tag are written only as far as the library got. */
    method EncryptOnce(out: array<byte>, tagOut: array<byte>) returns (ok: bool)
      requires IsAead(cipher) && out.Length >= size && tagOut.Length == TAG_SIZE && plaintext.Length >= size && aad.Length >= aadSize
      requires out != tagOut && out != plaintext && tagOut != plaintext
      modifies lib, out, tagOut
      ensures lib.calls == old(lib.calls) + 1 && lib.opens == old(lib.opens)
      ensures lib.seals == old(lib.seals) + if ok then 1 else 0
      ensures ok <==> !lib.fails(old(lib.calls))
      ensures out[size..] == old(out[size..])
      ensures ok ==> Sealed(out[..size], tagOut[..]) == old(cipher.seal(key[..], nonce[..], aad[..aadSize], plaintext[..size]))
      ensures !ok ==> tagOut[..] == old(tagOut[..])
    {
      var call := lib.calls;
      lib.calls := call + 1;
      if lib.fails(call) {
        forall i | 0 <= i < size { out[i] := lib.debris(call, i); }
        return false;
      }
      var s := cipher.seal(key[..], nonce[..], aad[..aadSize], plaintext[..size]);
      assert OpensWhatItSealed(cipher, key[..], nonce[..], aad[..aadSize], plaintext[..size]);
      forall i | 0 <= i < size { out[i] := s.ciphertext[i]; }
      forall i | 0 <= i < TAG_SIZE { tagOut[i] := s.tag[i]; }
      assert out[..size] == s.ciphertext && tagOut[..] == s.tag;
      lib.seals := lib.seals + 1;
      return true;
    }

    /** `decrypt_once` from the ciphertext and tag buffers into the output. */
    method DecryptOnce() returns (ok: bool)
      requires Allocated() && IsAead(cipher)
      modifies lib, output
      ensures lib.calls == old(lib.calls) + 1 && lib.seals == old(lib.seals)
      ensures lib.opens == old(lib.opens) + if ok then 1 else 0
      ensures output[size..] == old(output[size..])
      ensures var plain := old(cipher.open(key[..], nonce[..], aad[..aadSize], ciphertext[..size], tag[..]));
              && (ok <==> !lib.fails(old(lib.calls)) && plain.Some? && |plain.value| == size)
              && (ok ==> output[..size] == plain.value)
    {
      var call := lib.calls;
      lib.calls := call + 1;
      var plain := cipher.open(key[..], nonce[..], aad[..aadSize], ciphertext[..size], tag[..]);
      if lib.fails(call) || plain.None? || |plain.value| != size {
        forall i | 0 <= i < size { output[i] := lib.debris(call, i); }
        return false;
      }
      forall i | 0 <= i < size { output[i] := plain.value[i]; }
      assert output[..size] == plain.value;
      lib.opens := lib.opens + 1;
      return true;
    }

    method Verify() returns (ok: bool)
      requires Valid()
      modifies lib, output
      ensures Valid() && TheSetup() == old(TheSetup())
      ensures ok <==> !lib.fails(old(lib.calls)) && !lib.fails(old(lib.calls) + 1)
      ensures ok ==> lib.calls == old(lib.calls) + 2 && TheView() == Execute(TheSetup(), old(TheView()), Command.Verify)
      ensures ok ==> lib.seals == old(lib.seals) + 1 && lib.opens == old(lib.opens) + 1
      ensures ok ==> output[..size] == plaintext[..size] && output[size..] == old(output[size..])
    {
      var freshTag := new byte[TAG_SIZE];
      SealIsOpened(cipher, key[..], nonce[..], aad[..aadSize], plaintext[..size]);
      ok := EncryptOnce(output, freshTag);
      if !ok || output[..size] != ciphertext[..size] || freshTag[..] != tag[..] {
        return false;
      }
      ok := DecryptOnce();
      if !ok || output[..size] != plaintext[..size] {
        return false;
      }
      assert output[..] == output[..size] + output[size..];
    }

    /** One iteration of a batch. */
    method RunOnce() returns (ok: bool)
      requires Valid()
      modifies lib, output, tag
      ensures Valid() && TheSetup() == old(TheSetup()) && lib.calls == old(lib.calls) + 1
      ensures ok <==> !lib.fails(old(lib.calls))
      ensures ok ==> output[..] == Overwrite(old(output[..]), TheSetup().Result())
      ensures ok ==> output[..size] == match operation case Seal => ciphertext[..size] case Open => plaintext[..size]
      ensures ok ==> match operation
                     case Seal => lib.seals == old(lib.seals) + 1 && lib.opens == old(lib.opens)
                     case Open => lib.opens == old(lib.opens) + 1 && lib.seals == old(lib.seals)
    {
      SealIsOpened(cipher, key[..], nonce[..], aad[..aadSize], plaintext[..size]);
      hide IsAead;
      if operation == Seal {
        ok := EncryptOnce(output, tag);
      } else {
        ok := DecryptOnce();
      }
      assert output[..] == output[..size] + output[size..];
    }

    /** As many seals or openings as there are iterations; the first `size` bytes of the output
        are then the ciphertext or the plaintext, and the last of them goes into the checksum. */
    method RunBatch(iterations: nat) returns (ok: bool)
      requires Valid()
      modifies lib, output, tag, this`checksum
      ensures Valid() && TheSetup() == old(TheSetup())
      ensures ok <==> lib.NoFaults(old(lib.calls), old(lib.calls) + iterations)
      ensures ok ==> lib.calls == old(lib.calls) + iterations
      ensures ok ==> TheView() == Execute(TheSetup(), old(TheView()), Batch(iterations))
      ensures ok ==> match operation
                     case Seal => lib.seals == old(lib.seals) + iterations && lib.opens == old(lib.opens)
                     case Open => lib.opens == old(lib.opens) + iterations && lib.seals == old(lib.seals)
      ensures ok && iterations > 0 && operation == Seal ==> output[..size] == ciphertext[..size]
      ensures ok && iterations > 0 && operation == Open ==> output[..size] == plaintext[..size]
      ensures ok ==> output[size..] == old(output[size..]) && (iterations == 0 ==> output[..] == old(output[..]))
      ensures ok ==> checksum == Xor(old(checksum), output[if size == 0 then 0 else size - 1])
      ensures !ok ==> checksum == old(checksum)
    {
      hide IsAead, Separate;
      var i := 0;
      while i < iterations
        invariant i <= iterations && lib.calls == old(lib.calls) + i
        invariant lib.NoFaults(old(lib.calls), lib.calls)
        invariant Valid() && TheSetup() == old(TheSetup()) && checksum == old(checksum)
        invariant output[..] == if i == 0 then old(output[..]) else Overwrite(old(output[..]), TheSetup().Result())
        invariant i > 0 ==> output[..size] == match operation case Seal => ciphertext[..size] case Open => plaintext[..size]
        invariant lib.seals == old(lib.seals) + if operation == Seal then i else 0
        invariant lib.opens == old(lib.opens) + if operation == Open then i else 0
      {
        ok := RunOnce();
        if !ok {
          return false;
        }
        i := i + 1;
      }
      checksum := Xor(checksum, output[if size == 0 then 0 else size - 1]);
      return true;
    }

    /** What one case of the benchmark does with its backend: commands in any order, stopping
        at the first that fails. Without library errors none does. */
    method Perform(commands: seq<Command>) returns (ok: bool)
      requires Valid()
      modifies lib, output, tag, this`checksum
      ensures Valid() && TheSetup() == old(TheSetup())
      ensures (forall i :: !lib.fails(i)) ==> ok
      ensures ok ==> TheView() == ExecuteAll(TheSetup(), old(TheView()), commands)
    {
      hide Execute, IsAead;
      var n := 0;
      while n < |commands|
        invariant n <= |commands| && Valid() && TheSetup() == old(TheSetup())
        invariant TheView() == ExecuteAll(TheSetup(), old(TheView()), commands[..n])
      {
        match commands[n] {
          case Verify => ok := Verify();
          case Batch(iterations) => ok := RunBatch(iterations);
        }
        if !ok {
          return false;
        }
        assert commands[..n + 1][..n] == commands[..n];
        n := n + 1;
      }
      assert commands[..n] == commands;
      return true;
    }
  }

  lemma SealIsOpened(c: Cipher, key: seq<byte>, nonce: seq<byte>, aad: seq<byte>, plaintext: seq<byte>)
    requires IsAead(c)
    ensures OpensWhatItSealed(c, key, nonce, aad, plaintext)
  {
  }

  /** `ofb_backend_create`: a backend exactly when the parameters are in range, the algorithm
      is one of the three, the object, its buffers and its context are allocated, and the first
      encryption works. It has the cipher of that name, the fixed inputs, and their seal. */
  method Create(lib: Library, algorithm: string, operation: Operation, size: nat, aadSize: nat, memory: bool)
    returns (backend: Backend?)
    requires lib.Lawful()
    modifies lib
    ensures backend != null <==>
            && size <= 0x7FFF_FFFF && aadSize <= 0x7FFF_FFFF
            && (algorithm == "AES-128-GCM" || algorithm == "AES-256-GCM" || algorithm == "CHACHA20-POLY1305")
            && memory && !lib.fails(old(lib.calls))
    ensures backend != null ==>
            && fresh(backend) && fresh(backend.Buffers()) && backend.Valid() && backend.lib == lib
            && backend.operation == operation && backend.size == size && backend.aadSize == aadSize && backend.checksum == 0
    ensures backend != null ==>
            && (algorithm == "AES-128-GCM" ==> backend.cipher == lib.aes128)
            && (algorithm == "AES-256-GCM" ==> backend.cipher == lib.aes256)
            && (algorithm == "CHACHA20-POLY1305" ==> backend.cipher == lib.chacha)
    ensures backend != null ==>
            && backend.key.Length == 32 && backend.nonce.Length == 12 && backend.tag.Length == 16
            && (forall i :: 0 <= i < 32 ==> backend.key[i] == i + 1)
            && (forall i :: 0 <= i < 12 ==> backend.nonce[i] == 0xa0 + i)
            && (forall i :: 0 <= i < backend.aad.Length ==> backend.aad[i] == 0)
            && (forall i :: 0 <= i < size ==> backend.plaintext[i] == (i * 31 + 7) % 256)
    ensures backend != null ==>
            && backend.ciphertext.Length == backend.output.Length == size + 16
            && Sealed(backend.ciphertext[..size], backend.tag[..])
               == backend.cipher.seal(backend.key[..], backend.nonce[..], backend.aad[..aadSize], backend.plaintext[..size])
  {
    PatternBytes(31, 7, size);
    assert |FixturePlaintext(size)| == size && forall i :: 0 <= i < size ==> FixturePlaintext(size)[i] == (i * 31 + 7) % 256;
    hide IsAead, FixturePlaintext;
    if size > INT_MAX || aadSize > INT_MAX {
      return null;
    }
    var cipher := lib.FindCipher(algorithm);
    if cipher.None? || !memory {
      return null;
    }
    var b := new Backend.Allocate(lib, cipher.value, operation, size, aadSize);
    b.FillFixture();
    var ok := b.EncryptOnce(b.ciphertext, b.tag);
    if !ok {
      return null;
    }
    return b;
  }
}
