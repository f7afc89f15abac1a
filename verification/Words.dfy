/** Bytes, 32-byte chunks, powers of two and the bits of an index. */
module Words {

  type Byte = x: int | 0 <= x < 256

  type U64 = x: int | 0 <= x < 0x1_0000_0000_0000_0000

  type Chunk = s: seq<Byte> | |s| == 32 witness ZeroBytes(32)

  /** `hash` of lib/bls_hsm.h on a 64-byte input, left uninterpreted. */
  type HashFn = seq<Byte> -> Chunk

  function ZeroBytes(n: nat): (r: seq<Byte>)
    ensures |r| == n && forall k :: 0 <= k < n ==> r[k] == 0
  {
    if n == 0 then [] else [0] + ZeroBytes(n - 1)
  }

  const ZERO: Chunk := ZeroBytes(32)

  function Zeros(n: nat): (r: seq<Chunk>)
    ensures |r| == n && forall k :: 0 <= k < n ==> r[k] == ZERO
  {
    if n == 0 then [] else [ZERO] + Zeros(n - 1)
  }

  function Pow2(n: nat): (p: nat)
    ensures p >= 1
  {
    if n == 0 then 1 else 2 * Pow2(n - 1)
  }

  lemma {:induction false} Pow2Monotone(a: nat, b: nat)
    requires a <= b
    ensures Pow2(a) <= Pow2(b)
    decreases b
  {
    if a < b { Pow2Monotone(a, b - 1); }
  }

  /** `i >> j`; bit j of i is `Shr(i, j) % 2`. */
  function Shr(i: nat, j: nat): (r: nat) {
    if j == 0 then i else Shr(i, j - 1) / 2
  }

  predicate Bit(i: nat, j: nat) { Shr(i, j) % 2 == 1 }

  lemma MulMonotone(a: nat, b: nat, p: nat)
    requires a <= b
    ensures a * p <= b * p
  {
  }

  lemma Halve(s: nat, p: nat)
    ensures s / 2 * (2 * p) <= s * p
    ensures (s + 1) * p <= (s / 2 + 1) * (2 * p)
  {
    var q := s / 2;
    MulMonotone(2 * q, s, p);
    MulMonotone(s + 1, 2 * q + 2, p);
    assert q * (2 * p) == (2 * q) * p;
    assert (q + 1) * (2 * p) == (2 * q + 2) * p;
  }

  /** Shifting is division by a power of two. */
  lemma {:induction false} ShrBounds(i: nat, j: nat)
    ensures Shr(i, j) * Pow2(j) <= i < (Shr(i, j) + 1) * Pow2(j)
  {
    if j > 0 {
      ShrBounds(i, j - 1);
      Halve(Shr(i, j - 1), Pow2(j - 1));
    }
  }

  lemma {:induction false} ShrSmall(i: nat, d: nat)
    requires i < Pow2(d)
    ensures Shr(i, d) == 0
  {
    ShrBounds(i, d);
    var s := Shr(i, d);
    assert s >= 1 ==> Pow2(d) <= s * Pow2(d) by {
      if s >= 1 { MulMonotone(1, s, Pow2(d)); }
    }
  }

  lemma {:induction false} ShrPow2(d: nat, j: nat)
    requires j <= d
    ensures Shr(Pow2(d), j) == Pow2(d - j)
  {
    if j > 0 { ShrPow2(d, j - 1); }
  }

  ghost predicate LowOnes(i: nat, l: nat) { forall t :: 0 <= t < l ==> Bit(i, t) }

  /** Carry propagation: adding one to a number whose l low bits are ones and whose
      bit l is zero clears the low bits, sets bit l and keeps every higher bit. */
  lemma {:induction false} Increment(i: nat, l: nat, t: nat)
    requires LowOnes(i, l) && !Bit(i, l)
    ensures t < l ==> !Bit(i + 1, t)
    ensures t <= l ==> Shr(i + 1, t) == Shr(i, t) + 1
    ensures t > l ==> Shr(i + 1, t) == Shr(i, t)
  {
    if t > 0 {
      Increment(i, l, t - 1);
      if t <= l { assert Bit(i, t - 1); }
    }
    if t < l { assert Bit(i, t); }
  }
}
