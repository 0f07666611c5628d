/** What both backends share: the fixed message bytes they are created with, the commands a
    benchmark gives them, and the parity rule of their running checksum. */
module Fixture {
  import opened Prelude

  /** The low byte of a linear function of the position, computed in 64-bit size_t. */
  function PatternByte(multiplier: nat, offset: nat, i: nat): byte {
    ((i * multiplier % WORD_RANGE + offset) % WORD_RANGE) % 256
  }

  function Pattern(multiplier: nat, offset: nat, size: nat): seq<byte> {
    seq(size, i requires 0 <= i => PatternByte(multiplier, offset, i))
  }

  lemma RangeKeepsLowByte(x: nat)
    ensures x % WORD_RANGE % 256 == x % 256
  {
    var q, r := x / WORD_RANGE, x % WORD_RANGE;
    assert WORD_RANGE == 256 * 0x100_0000_0000_0000;
    assert x == 256 * (0x100_0000_0000_0000 * q) + r;
    SameRemainder(x, r, 0x100_0000_0000_0000 * q);
  }

  lemma SameRemainder(x: int, r: int, k: int)
    requires x == 256 * k + r
    ensures x % 256 == r % 256
  {
    var a, b := x / 256, r / 256;
    assert x % 256 - r % 256 == 256 * (k - a + b);
  }

  /** Wrap-around does not show in the byte. */
  lemma ByteWithoutWrap(multiplier: nat, offset: nat, i: nat)
    ensures PatternByte(multiplier, offset, i) == (i * multiplier + offset) % 256
  {
    var low := i * multiplier % WORD_RANGE;
    RangeKeepsLowByte(i * multiplier);
    RangeKeepsLowByte(low + offset);
    SameRemainder(low, low % 256, low / 256);
    SameRemainder(i * multiplier, low % 256, i * multiplier / 256);
    SameRemainder(low + offset, low % 256 + offset, low / 256);
    SameRemainder(i * multiplier + offset, low % 256 + offset, i * multiplier / 256);
  }

  lemma PatternBytes(multiplier: nat, offset: nat, size: nat)
    ensures |Pattern(multiplier, offset, size)| == size
    ensures forall i :: 0 <= i < size ==> Pattern(multiplier, offset, size)[i] == (i * multiplier + offset) % 256
  {
    forall i | 0 <= i < size
      ensures PatternByte(multiplier, offset, i) == (i * multiplier + offset) % 256
    {
      ByteWithoutWrap(multiplier, offset, i);
    }
  }

  /** 53 is the inverse of 29 modulo 256. */
  lemma Injective29(i: nat, j: nat, offset: nat)
    ensures (i * 29 + offset) % 256 == (j * 29 + offset) % 256 <==> i % 256 == j % 256
  {
    var x, y := i * 29 + offset, j * 29 + offset;
    if x % 256 == y % 256 {
      SameRemainder(i, j, 53 * (x / 256 - y / 256) - 6 * (i - j));
    }
    if i % 256 == j % 256 {
      SameRemainder(x, y, (i / 256 - j / 256) * 29);
    }
  }

  /** 223 is the inverse of 31 modulo 256. */
  lemma Injective31(i: nat, j: nat, offset: nat)
    ensures (i * 31 + offset) % 256 == (j * 31 + offset) % 256 <==> i % 256 == j % 256
  {
    var x, y := i * 31 + offset, j * 31 + offset;
    if x % 256 == y % 256 {
      SameRemainder(i, j, 223 * (x / 256 - y / 256) - 27 * (i - j));
    }
    if i % 256 == j % 256 {
      SameRemainder(x, y, (i / 256 - j / 256) * 31);
    }
  }

  /** Two message bytes agree exactly when their positions agree modulo 256. */
  lemma PatternRepeatsEvery256(multiplier: nat, offset: nat, i: nat, j: nat)
    requires multiplier == 29 || multiplier == 31
    ensures PatternByte(multiplier, offset, i) == PatternByte(multiplier, offset, j) <==> i % 256 == j % 256
  {
    ByteWithoutWrap(multiplier, offset, i);
    ByteWithoutWrap(multiplier, offset, j);
    hide PatternByte;
    if multiplier == 29 {
      Injective29(i, j, offset);
    } else {
      Injective31(i, j, offset);
    }
  }

  /** A message with the byte of position j at position i passes the final comparison only if
      the two positions are a multiple of 256 apart. */
  lemma MisplacementIsSeen(multiplier: nat, offset: nat, received: seq<byte>, i: nat, j: nat)
    requires multiplier == 29 || multiplier == 31
    requires i < |received| && received[i] == PatternByte(multiplier, offset, j)
    ensures received == Pattern(multiplier, offset, |received|) ==> i % 256 == j % 256
  {
    hide PatternByte;
    PatternRepeatsEvery256(multiplier, offset, i, j);
  }

  // ----- commands

  datatype Command = Verify | Batch(iterations: nat)

  function BatchCount(cs: seq<Command>): nat {
    if cs == [] then 0 else BatchCount(cs[..|cs| - 1]) + if cs[|cs| - 1].Batch? then 1 else 0
  }

  /** It is the number of batches among the commands. */
  lemma {:induction false} BatchCountCounts(cs: seq<Command>)
    ensures BatchCount(cs) == |set i | 0 <= i < |cs| && cs[i].Batch?|
  {
    if cs != [] {
      var last := |cs| - 1;
      BatchCountCounts(cs[..last]);
      var before, all := set i | 0 <= i < |cs[..last]| && cs[..last][i].Batch?, set i | 0 <= i < |cs| && cs[i].Batch?;
      assert all == before + if cs[last].Batch? then {last} else {};
    }
  }

  // ----- checksums

  /** The byte a batch adds to the checksum: the last one of the message, or for an empty
      message the first one of the buffer. */
  function FinalByte(size: nat, buffer: seq<byte>): byte
    requires size <= |buffer| && buffer != []
  {
    buffer[if size == 0 then 0 else size - 1]
  }

  function Xor(a: byte, b: byte): byte { ((a as bv8) ^ (b as bv8)) as byte }

  lemma XorCancels(b: byte)
    ensures Xor(0, b) == b && Xor(b, b) == 0
  {
  }

  /** b combined with itself k times. */
  function XorTimes(b: byte, k: nat): byte {
    if k == 0 then 0 else Xor(XorTimes(b, k - 1), b)
  }

  lemma {:induction false} XorTimesParity(b: byte, k: nat)
    ensures XorTimes(b, k) == if k % 2 == 0 then 0 else b
  {
    XorCancels(b);
    hide Xor;
    if k > 0 {
      XorTimesParity(b, k - 1);
    }
  }
}
