/** Small vocabulary shared by the other modules: option values, the 64-bit word
    of the C sources, ceiling division, powers of two and list concatenation. */
module Prelude {

  datatype Option<+T> = None | Some(value: T)

  const U64_MAX: nat := 0xFFFF_FFFF_FFFF_FFFF
  const WORD_RANGE: nat := U64_MAX + 1
  const INT_MAX: nat := 0x7FFF_FFFF

  type byte = b: nat | b < 256

  type u64 = n: nat | n <= U64_MAX

  function Min(a: int, b: int): int { if a < b then a else b }

  function Max(a: int, b: int): int { if a < b then b else a }

  /** Integer division as a name, to keep it out of proofs that need only its bounds. */
  function Quotient(a: nat, b: nat): nat
    requires b > 0
  {
    a / b
  }

  /** The number of pieces of at most `d` units that `n` units are cut into. */
  function CeilDiv(n: nat, d: nat): nat
    requires d > 0
  {
    if n == 0 then 0
    else if n <= d then 1
    else 1 + CeilDiv(n - d, d)
  }

  /** It is the least r with n <= r * d. */
  lemma {:induction false} CeilDivIsLeast(n: nat, d: nat)
    requires d > 0
    ensures n <= CeilDiv(n, d) * d
    ensures n > 0 ==> (CeilDiv(n, d) - 1) * d < n
  {
    if n > d {
      CeilDivIsLeast(n - d, d);
    }
  }

  function Pow2(k: nat): (p: nat)
    ensures p >= 1
  {
    if k == 0 then 1 else 2 * Pow2(k - 1)
  }

  lemma {:induction false} Pow2Add(i: nat, j: nat)
    ensures Pow2(i + j) == Pow2(i) * Pow2(j)
  {
    if i > 0 {
      Pow2Add(i - 1, j);
    }
  }

  lemma {:induction false} Pow2Monotone(i: nat, j: nat)
    requires i <= j
    ensures Pow2(i) <= Pow2(j)
  {
    if i < j {
      Pow2Monotone(i, j - 1);
    }
  }

  lemma Pow2Of63And64()
    ensures Pow2(63) == 0x8000_0000_0000_0000
    ensures Pow2(64) == WORD_RANGE
  {
    assert Pow2(16) == 65536;
    Pow2Add(16, 16);
    Pow2Add(32, 16);
    Pow2Add(48, 15);
    assert Pow2(15) == 32768;
    assert Pow2(64) == 2 * Pow2(63);
  }

  lemma Pow2Fits(k: nat)
    requires Pow2(k) <= U64_MAX
    ensures k <= 63
  {
    Pow2Of63And64();
    if k >= 64 {
      Pow2Monotone(64, k);
    }
  }

  /** The elements of a list of lists, in order. */
  function Concat<T>(parts: seq<seq<T>>): seq<T> {
    if parts == [] then [] else parts[0] + Concat(parts[1..])
  }

  lemma {:induction false} ConcatAppend<T>(a: seq<seq<T>>, b: seq<seq<T>>)
    ensures Concat(a + b) == Concat(a) + Concat(b)
  {
    if a == [] {
      assert a + b == b;
    } else {
      assert (a + b)[1..] == a[1..] + b;
      ConcatAppend(a[1..], b);
    }
  }
}
