/** htrBitlist of lib/merkleization.h: hash-tree-root of a serialized bit list, whose last
    set bit is a delimiter and not part of the list. */
module Bitlist {
  import opened Words
  import opened MerkleTree
  import opened Hex
  import opened Merkleization

  // ----- bits of a byte

  /** The number made of the n low bits of x. */
  function LowBits(x: nat, n: nat): (r: nat)
    ensures r < Pow2(n)
  {
    if n == 0 then 0 else LowBits(x, n - 1) + (if Bit(x, n - 1) then Pow2(n - 1) else 0)
  }

  lemma SplitProduct(q: nat, r: nat, p: nat)
    requires r <= 1
    ensures (2 * q + r) * p == q * (2 * p) + (if r == 1 then p else 0)
  {
    if r == 0 { assert (2 * q) * p == q * (2 * p); }
    else { assert (2 * q + 1) * p == (2 * q) * p + p == q * (2 * p) + p; }
  }

  lemma {:induction false} SplitBits(x: nat, n: nat)
    ensures x == LowBits(x, n) + Shr(x, n) * Pow2(n)
  {
    if n > 0 {
      SplitBits(x, n - 1);
      SplitProduct(Shr(x, n - 1) / 2, Shr(x, n - 1) % 2, Pow2(n - 1));
    }
  }

  lemma ByteIsItsBits(x: Byte)
    ensures LowBits(x, 8) == x
  {
    SmallPowers();
    ShrSmall(x, 8);
    SplitBits(x, 8);
  }

  /** x &= ~(1 << b) */
  function ClearBit(x: Byte, b: nat): (r: Byte) {
    SplitBits(x, b);
    assert Bit(x, b) ==> Pow2(b) <= x by {
      if Bit(x, b) { MulMonotone(1, Shr(x, b), Pow2(b)); }
    }
    if Bit(x, b) then x - Pow2(b) else x
  }

  /** Clearing the top bit, as BitIndex finds it, leaves the bits below. */
  lemma ClearTopBit(x: Byte)
    ensures ClearBit(x, BitIndex(x)) == LowBits(x, BitIndex(x))
  {
    var t := BitIndex(x);
    BitIndexIsTopBit(x);
    SplitBits(x, t);
    if x > 0 {
      ShrBounds(x, t);
      TopShift(Shr(x, t), Pow2(t), x);
    } else {
      assert !Bit(0, 0);
    }
  }

  lemma TopShift(s: nat, p: nat, x: nat)
    requires s * p <= x < (s + 1) * p && p <= x < 2 * p
    ensures s == 1
  {
    if s >= 2 { MulMonotone(2, s, p); }
  }

  // ----- packing bits into bytes and chunks

  predicate BitAt(bits: seq<bool>, k: nat) { k < |bits| && bits[k] }

  function PackLow(bits: seq<bool>, o: nat, n: nat): (r: nat)
    ensures r < Pow2(n)
  {
    if n == 0 then 0 else PackLow(bits, o, n - 1) + (if BitAt(bits, o + (n - 1)) then Pow2(n - 1) else 0)
  }

  function PackByte(bits: seq<bool>, o: nat): (r: Byte) {
    SmallPowers();
    PackLow(bits, o, 8)
  }

  function PackBytes(bits: seq<bool>, o: nat, n: nat): (r: seq<Byte>)
    ensures |r| == n && forall k :: 0 <= k < n ==> r[k] == PackByte(bits, o + 8 * k)
  {
    if n == 0 then [] else PackBytes(bits, o, n - 1) + [PackByte(bits, o + 8 * (n - 1))]
  }

  function PackChunk(bits: seq<bool>, c: nat): (r: Chunk) { PackBytes(bits, 256 * c, 32) }

  function PackChunks(bits: seq<bool>, n: nat): (r: seq<Chunk>)
    ensures |r| == n && forall c :: 0 <= c < n ==> r[c] == PackChunk(bits, c)
  {
    if n == 0 then [] else PackChunks(bits, n - 1) + [PackChunk(bits, n - 1)]
  }

  function ChunkCount(n: nat): nat { (n + 255) / 256 }

  /** pack_bits of the SSZ specification. */
  function PackBits(bits: seq<bool>): seq<Chunk> { PackChunks(bits, ChunkCount(|bits|)) }

  /** The SSZ serialization of a bit list: its bits, then a set delimiter bit. */
  function Serialize(bits: seq<bool>): (r: seq<Byte>) { PackBytes(bits + [true], 0, |bits| / 8 + 1) }

  function BitsOf(bytes: seq<Byte>, len: nat): (r: seq<bool>)
    requires len <= 8 * |bytes|
    ensures |r| == len && forall k :: 0 <= k < len ==> r[k] == Bit(bytes[k / 8], k % 8)
  {
    if len == 0 then [] else BitsOf(bytes, len - 1) + [Bit(bytes[(len - 1) / 8], (len - 1) % 8)]
  }

  /** BitlistLen: position of the delimiter. */
  function BitlistLen(bytes: seq<Byte>): (r: nat) {
    if |bytes| == 0 then 0 else 8 * (|bytes| - 1) + BitIndex(bytes[|bytes| - 1])
  }

  lemma BitlistLenBounds(bytes: seq<Byte>)
    ensures bytes != [] ==> 8 * (|bytes| - 1) <= BitlistLen(bytes) < 8 * |bytes|
  {
    if bytes != [] { BitIndexIsTopBit(bytes[|bytes| - 1]); }
  }

  /** The bits a serialization stands for. */
  function Deserialize(bytes: seq<Byte>): (r: seq<bool>) {
    BitlistLenBounds(bytes);
    BitsOf(bytes, BitlistLen(bytes))
  }

  lemma BitOfByte(bytes: seq<Byte>, len: nat, q: nat, j: nat)
    requires len <= 8 * |bytes| && q < |bytes| && j < 8
    ensures BitAt(BitsOf(bytes, len), 8 * q + j) <==> j < len - 8 * q && Bit(bytes[q], j)
  {
    var k := 8 * q + j;
    assert k / 8 == q && k % 8 == j;
  }

  /** Packing the n low bits of byte q, of which only the first len - 8q are in the list. */
  lemma {:induction false} PackLowOfBits(bytes: seq<Byte>, len: nat, q: nat, n: nat)
    requires len <= 8 * |bytes| && n <= 8 && q < |bytes| && 8 * q <= len
    ensures PackLow(BitsOf(bytes, len), 8 * q, n) == LowBits(bytes[q], if n <= len - 8 * q then n else len - 8 * q)
    decreases n
  {
    if n > 0 {
      PackLowOfBits(bytes, len, q, n - 1);
      BitOfByte(bytes, len, q, n - 1);
    }
  }

  lemma {:induction false} PackLowBeyond(bits: seq<bool>, o: nat, n: nat)
    requires |bits| <= o
    ensures PackLow(bits, o, n) == 0
  {
    if n > 0 { PackLowBeyond(bits, o, n - 1); }
  }

  /** Bit len of the bytes is the highest set bit of the last byte, or that byte is zero. */
  ghost predicate Delimited(bytes: seq<Byte>, len: nat) {
    && 0 < |bytes| && 8 * (|bytes| - 1) <= len < 8 * |bytes|
    && var t := len - 8 * (|bytes| - 1); ClearBit(bytes[|bytes| - 1], t) == LowBits(bytes[|bytes| - 1], t)
  }

  lemma BitlistLenDelimits(bytes: seq<Byte>)
    requires bytes != []
    ensures Delimited(bytes, BitlistLen(bytes))
  {
    BitIndexIsTopBit(bytes[|bytes| - 1]);
    ClearTopBit(bytes[|bytes| - 1]);
  }

  /** Byte q of the packed list, in terms of the serialized byte at the same place. */
  ghost function ListByte(bytes: seq<Byte>, len: nat, q: nat): Byte
    requires Delimited(bytes, len)
  {
    if q >= |bytes| then 0 else if q < |bytes| - 1 then bytes[q] else ClearBit(bytes[q], len - 8 * q)
  }

  lemma PackedByte(bytes: seq<Byte>, len: nat, q: nat)
    requires Delimited(bytes, len)
    ensures PackByte(BitsOf(bytes, len), 8 * q) == ListByte(bytes, len, q)
  {
    if q >= |bytes| {
      PackLowBeyond(BitsOf(bytes, len), 8 * q, 8);
    } else {
      PackLowOfBits(bytes, len, q, 8);
      ByteIsItsBits(bytes[q]);
    }
  }

  lemma PackedChunk(bytes: seq<Byte>, len: nat, i: nat, r: Chunk)
    requires Delimited(bytes, len)
    requires forall k :: 0 <= k < 32 ==> r[k] == ListByte(bytes, len, 32 * i + k)
    ensures r == PackChunk(BitsOf(bytes, len), i)
  {
    forall k | 0 <= k < 32 ensures r[k] == PackChunk(BitsOf(bytes, len), i)[k] {
      PackedByte(bytes, len, 32 * i + k);
      assert 256 * i + 8 * k == 8 * (32 * i + k);
    }
  }

  /** The body of the chunk loop (lines 218-226): zero, copy, clear the delimiter. */
  method FillChunk(bitlist: seq<Byte>, bitLen: nat, i: nat) returns (r: Chunk)
    requires Delimited(bitlist, bitLen) && 256 * i < bitLen
    ensures r == PackChunk(BitsOf(bitlist, bitLen), i)
  {
    var hArr := new Byte[32](_ => 0);
    var n := if bitLen - 256 * i >= 256 then 32 else |bitlist| - 32 * i;
    forall k | 0 <= k < n { hArr[k] := bitlist[32 * i + k]; }
    if 256 * (i + 1) > bitLen {
      DelimiterPlace(|bitlist|, bitLen, i);
      var k, b := bitLen % 256 / 8, bitLen % 8;
      hArr[k] := ClearBit(hArr[k], b);
    }
    r := hArr[..];
    PackedChunk(bitlist, bitLen, i, r);
  }

  lemma DelimiterPlace(n: nat, bitLen: nat, i: nat)
    requires n > 0 && 8 * (n - 1) <= bitLen < 8 * n && 256 * i < bitLen < 256 * (i + 1)
    ensures bitLen % 256 / 8 == n - 1 - 32 * i && bitLen % 8 == bitLen - 8 * (n - 1)
  {
    Remainder(bitLen, 256, i);
    Remainder(bitLen, 8, n - 1);
    Remainder(bitLen - 256 * i, 8, n - 1 - 32 * i);
  }

  lemma Remainder(x: nat, m: nat, q: nat)
    requires m > 0 && m * q <= x < m * q + m
    ensures x / m == q && x % m == x - m * q
  {
    var e := x / m;
    assert x == e * m + x % m;
    if e < q { MulMonotone(e + 1, q, m); }
    if e > q { MulMonotone(q + 1, e, m); }
  }

  /** What htrBitlist returns when row 0 of the table holds P. */
  function BitlistResult(H: HashFn, P: Chunk, bytes: seq<Byte>, d: nat): Chunk
    requires ChunkCount(BitlistLen(bytes)) <= Pow2(d) && ChunkCount(BitlistLen(bytes)) <= 256
  {
    HashPair(H, TreeResult(H, P, Chunks(bytes), d), U64Chunk(BitlistLen(bytes)))
  }

  /** The chunks that are merged. */
  function Chunks(bytes: seq<Byte>): (r: seq<Chunk>)
    ensures |r| == ChunkCount(BitlistLen(bytes))
  {
    PackBits(Deserialize(bytes))
  }

  /** The chunk loop (lines 217-228). */
  method MergeChunks(m: Merkleizer, bitlist: seq<Byte>, bitLen: nat, depth: nat, tmp: array<Chunk>,
                     ghost leaves: seq<Chunk>, ghost xs: seq<Chunk>)
    requires m.Valid() && tmp != m.zerohashes && depth == Log2Ceil(|leaves|) < tmp.Length
    requires bitLen <= 8 * |bitlist| && (bitLen > 0 ==> Delimited(bitlist, bitLen))
    requires |leaves| == ChunkCount(bitLen) <= 256 && leaves == PackChunks(BitsOf(bitlist, bitLen), |leaves|)
    requires |leaves| <= |xs| && (|leaves| == 256 ==> xs[0] == tmp[0])
    requires forall i :: 0 <= i < |leaves| && !(|leaves| == 256 && i == 0) ==> xs[i] == leaves[i]
    modifies tmp
    ensures Pending(m.H, tmp[..], xs, |leaves|)
  {
    var hArr := new Chunk[1](_ => ZERO);
    NothingPending(m.H, tmp[..], xs);
    for i := 0 to ChunkCount(bitLen)
      invariant Pending(m.H, tmp[..], xs, i) && m.Valid()
      invariant i == 0 ==> tmp[0] == old(tmp[0])
    {
      hArr[0] := FillChunk(bitlist, bitLen, i);
      m.MergeOne(hArr, tmp, ChunkCount(bitLen), depth, i, leaves, xs);
    }
  }

  method StreamBitlist(m: Merkleizer, bitlist: seq<Byte>, bitLen: nat, chunks: nat, depth: nat, limitDepth: nat,
                       ghost leaves: seq<Chunk>)
    returns (root: Chunk)
    requires m.Valid() && limitDepth <= 8 && bitLen <= 8 * |bitlist| && (bitLen > 0 ==> Delimited(bitlist, bitLen))
    requires chunks == ChunkCount(bitLen) <= Pow2(limitDepth) && chunks <= 256 && depth == Log2Ceil(chunks)
    requires leaves == PackChunks(BitsOf(bitlist, bitLen), chunks)
    modifies m.zerohashes
    ensures m.Valid() && m.zerohashes[0] == NextPad(m.H, old(m.zerohashes[0]), leaves)
    ensures root == TreeResult(m.H, old(m.zerohashes[0]), leaves, limitDepth)
  {
    var tmp := new Chunk[limitDepth + 1](_ => ZERO);
    ghost var P, xs := m.zerohashes[0], Effective(leaves, m.zerohashes[0], limitDepth);
    EffectiveFits(leaves, P, limitDepth);
    MergeChunks(m, bitlist, bitLen, depth, tmp, leaves, xs);
    m.Pad(tmp, chunks, depth, limitDepth, leaves);
    m.Extend(tmp, depth, limitDepth, P, leaves);
    root := tmp[limitDepth];
  }

  method HtrBitlist(m: Merkleizer, bitlist: seq<Byte>, bitlimit: nat) returns (htr: Chunk)
    requires m.Valid()
    requires ChunkCount(BitlistLen(bitlist)) <= Pow2(CoverDepth(ChunkCount(bitlimit)))
    modifies m.zerohashes
    ensures ChunkCount(BitlistLen(bitlist)) <= 256 && m.Valid()
    ensures m.zerohashes[0] == NextPad(m.H, old(m.zerohashes[0]), Chunks(bitlist))
    ensures htr == BitlistResult(m.H, old(m.zerohashes[0]), bitlist, CoverDepth(ChunkCount(bitlimit)))
  {
    var bitLen := BitlistLen(bitlist);
    var chunks, chunkLimit := ChunkCount(bitLen), ChunkCount(bitlimit);
    CoverDepthCorrect(chunkLimit);
    CoverDepthCorrect(chunks);
    BitlistLenBounds(bitlist);
    if bitlist != [] { BitlistLenDelimits(bitlist); }
    var root := StreamBitlist(m, bitlist, bitLen, chunks, CoverDepth(chunks), CoverDepth(chunkLimit), Chunks(bitlist));
    SmallLength(bitLen);
    var htrlen := Htru64(bitLen);
    htr := HashPair(m.H, root, htrlen);
  }

  lemma SmallLength(n: nat)
    requires ChunkCount(n) <= 256
    ensures n < Pow256(8)
  {
    assert Pow256(2) == 256 * Pow256(1) && Pow256(4) == 256 * Pow256(3) && Pow256(6) == 256 * Pow256(5) && Pow256(8) == 256 * Pow256(7);
  }
}
