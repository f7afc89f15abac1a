/** Serialization round trip, injectivity of packing, and collision extraction for bit lists. */
module BitlistProperties {
  import opened Words
  import opened MerkleTree
  import opened Hex
  import opened Merkleization
  import opened Bitlist

  lemma {:induction false} ShrAddHigh(x: nat, m: nat, t: nat)
    requires x < Pow2(m) && t <= m
    ensures Shr(x + Pow2(m), t) == Shr(x, t) + Pow2(m - t)
  {
    if t > 0 {
      ShrAddHigh(x, m, t - 1);
      assert Pow2(m - (t - 1)) == 2 * Pow2(m - t);
    }
  }

  /** Unpacking a packed byte gives the bits back. */
  lemma {:induction false} PackedBit(bits: seq<bool>, o: nat, n: nat, t: nat)
    requires t < n
    ensures Bit(PackLow(bits, o, n), t) == BitAt(bits, o + t)
  {
    var low := PackLow(bits, o, n - 1);
    ShrAddHigh(low, n - 1, t);
    if t < n - 1 {
      PackedBit(bits, o, n - 1, t);
      assert Pow2(n - 1 - t) == 2 * Pow2(n - 2 - t);
    } else {
      ShrSmall(low, n - 1);
    }
  }

  lemma {:induction false} PackLowEnds(bits: seq<bool>, o: nat, n: nat, m: nat)
    requires m <= n && |bits| <= o + m
    ensures PackLow(bits, o, n) == PackLow(bits, o, m)
    decreases n
  {
    if m < n { PackLowEnds(bits, o, n - 1, m); }
  }

  lemma TopBitUnique(x: Byte, t: nat)
    requires Pow2(t) <= x < Pow2(t + 1)
    ensures BitIndex(x) == t
  {
    var b := BitIndex(x);
    BitIndexIsTopBit(x);
    if b < t { Pow2Monotone(b + 1, t); }
    if t < b { Pow2Monotone(t + 1, b); }
  }

  /** The delimiter is found where the serialization put it. */
  lemma SerializedLength(bits: seq<bool>)
    ensures BitlistLen(Serialize(bits)) == |bits|
  {
    var bs, q, t := bits + [true], |bits| / 8, |bits| % 8;
    var bytes := Serialize(bits);
    assert bytes[|bytes| - 1] == PackByte(bs, 0 + 8 * q);
    PackLowEnds(bs, 8 * q, 8, t + 1);
    assert BitAt(bs, 8 * q + t);
    TopBitUnique(PackByte(bs, 8 * q), t);
  }

  lemma SerializeRoundTrip(bits: seq<bool>)
    ensures Deserialize(Serialize(bits)) == bits
  {
    SerializedLength(bits);
    var bs, bytes, r := bits + [true], Serialize(bits), Deserialize(Serialize(bits));
    forall k | 0 <= k < |bits| ensures r[k] == bits[k] {
      assert bytes[k / 8] == PackByte(bs, 0 + 8 * (k / 8));
      PackedBit(bs, 8 * (k / 8), 8, k % 8);
      assert 8 * (k / 8) + k % 8 == k;
    }
  }

  lemma SplitIndex(k: nat)
    ensures k % 256 / 8 < 32 && 256 * (k / 256) + 8 * (k % 256 / 8) == 8 * (k / 8) && 8 * (k / 8) + k % 8 == k
  {
    var c, r := k / 256, k % 256;
    Remainder(k, 8, 32 * c + r / 8);
  }

  lemma ChunkBit(bits: seq<bool>, k: nat)
    ensures k % 256 / 8 < 32
    ensures Bit(PackChunk(bits, k / 256)[k % 256 / 8], k % 8) == BitAt(bits, k)
  {
    var c, b, o := k / 256, k % 256 / 8, 8 * (k / 8);
    SplitIndex(k);
    assert PackChunk(bits, c)[b] == PackByte(bits, 256 * c + 8 * b);
    PackedBit(bits, o, 8, k % 8);
  }

  /** Lists of one length are determined by their chunks. */
  lemma PackInjective(a: seq<bool>, b: seq<bool>)
    requires |a| == |b| && PackBits(a) == PackBits(b)
    ensures a == b
  {
    forall k | 0 <= k < |a| ensures a[k] == b[k] {
      ChunkBit(a, k);
      ChunkBit(b, k);
      assert PackBits(a)[k / 256] == PackBits(b)[k / 256];
    }
  }

  /** mix_in_length(merkleize(pack_bits(bits), limit), len(bits)) for a limit of 2^d chunks. */
  function SszBitlistRoot(H: HashFn, bits: seq<bool>, d: nat): Chunk
    requires ChunkCount(|bits|) <= Pow2(d)
  {
    HashPair(H, PaddedRoot(H, PackBits(bits), d), U64Chunk(|bits|))
  }

  /** The strings hashed for it. */
  ghost function SszBitlistStrings(H: HashFn, bits: seq<bool>, d: nat): set<seq<Byte>>
    requires ChunkCount(|bits|) <= Pow2(d)
  {
    PaddedHashed(H, PackBits(bits), d) + {Join(PaddedRoot(H, PackBits(bits), d), U64Chunk(|bits|))}
  }

  /** Two different bit lists with one root yield a collision between a string hashed for the
      one and a string hashed for the other, found through the length mix-in, the tree or the
      padding. */
  lemma BitlistCollision(H: HashFn, a: seq<bool>, b: seq<bool>, d: nat) returns (x: seq<Byte>, y: seq<Byte>)
    requires ChunkCount(|a|) <= Pow2(d) && ChunkCount(|b|) <= Pow2(d)
    requires |a| < Pow256(8) && |b| < Pow256(8) && a != b
    requires SszBitlistRoot(H, a, d) == SszBitlistRoot(H, b, d)
    ensures Collision(H, x, y) && x in SszBitlistStrings(H, a, d) && y in SszBitlistStrings(H, b, d)
  {
    var pa, pb := ZeroPadded(PackBits(a), d), ZeroPadded(PackBits(b), d);
    var ra, rb := MerkleRoot(H, pa, d), MerkleRoot(H, pb, d);
    var la, lb := U64Chunk(|a|), U64Chunk(|b|);
    PairInjective(H, ra, la, rb, lb);
    if ra == rb && la == lb {
      U64ChunkInjective(|a|, |b|);
      assert pa[..ChunkCount(|a|)] == PackBits(a) && pb[..ChunkCount(|b|)] == PackBits(b);
      if pa == pb {
        PackInjective(a, b);
      }
      x, y := ExtractCollision(H, pa, pb, d);
    } else {
      x, y := Join(ra, la), Join(rb, lb);
    }
  }
}
