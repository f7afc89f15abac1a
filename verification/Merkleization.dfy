/** lib/merkleization.h: the streaming hash-tree-root of lists. Leaves are merged one at a
    time into `tmp` like carries into a binary counter; a row of the global table
    `zerohashes` doubles as the in/out buffer of the padding merge. */
module Merkleization {
  import opened Words
  import opened MerkleTree
  import opened Hex

  // ----- depths

  /** BitIndex: three mask-and-shift steps. Each mask covers all bits from its lowest up to the
      highest that can still be set, so testing it is a comparison. */
  function BitIndex(v: Byte): (r: nat) {
    var v1 := if v >= 16 then v / 16 else v;
    var v2 := if v1 >= 4 then v1 / 4 else v1;
    (if v >= 16 then 4 else 0) + (if v1 >= 4 then 2 else 0) + (if v2 >= 2 then 1 else 0)
  }

  /** CoverDepth: the argument of BitIndex is cut to its low eight bits. */
  function CoverDepth(v: nat): (r: nat) {
    if v == 0 || v == 1 then 0 else BitIndex((v - 1) % 256) + 1
  }

  lemma SmallPowers()
    ensures Pow2(0) == 1 && Pow2(1) == 2 && Pow2(2) == 4 && Pow2(3) == 8 && Pow2(4) == 16
    ensures Pow2(5) == 32 && Pow2(6) == 64 && Pow2(7) == 128 && Pow2(8) == 256
  {
    assert Pow2(2) == 2 * Pow2(1) && Pow2(4) == 2 * Pow2(3) && Pow2(6) == 2 * Pow2(5) && Pow2(8) == 2 * Pow2(7);
  }

  lemma BitIndexIsTopBit(v: Byte)
    ensures BitIndex(v) <= 7
    ensures v > 0 ==> Pow2(BitIndex(v)) <= v < Pow2(BitIndex(v) + 1)
    ensures v == 0 ==> BitIndex(v) == 0
  {
    SmallPowers();
  }

  ghost predicate LeastCover(v: nat, d: nat) {
    v <= Pow2(d) && (d > 0 ==> Pow2(d - 1) < v)
  }

  /** The depth a tree of v leaves needs: the rounded-up binary logarithm. */
  function Log2Ceil(v: nat): (d: nat)
    ensures LeastCover(v, d)
  {
    if v <= 1 then 0 else 1 + Log2Ceil((v + 1) / 2)
  }

  lemma LeastCoverUnique(v: nat, c: nat, d: nat)
    requires LeastCover(v, c) && LeastCover(v, d)
    ensures c == d
  {
    if c < d { Pow2Monotone(c, d - 1); }
    if d < c { Pow2Monotone(d, c - 1); }
  }

  lemma CoverDepthSmall(v: nat)
    requires 1 < v <= 256
    ensures CoverDepth(v) == BitIndex(v - 1) + 1
  {
    assert (v - 1) % 256 == v - 1;
  }

  lemma CoverDepthTop(v: nat) returns (b: nat)
    requires 1 < v <= 256
    ensures CoverDepth(v) == b + 1 && Pow2(b) <= v - 1 < Pow2(b + 1)
  {
    CoverDepthSmall(v);
    b := BitIndex(v - 1);
    BitIndexIsTopBit(v - 1);
  }

  lemma CoverDepthCovers(v: nat)
    requires v <= 256
    ensures LeastCover(v, CoverDepth(v))
  {
    if 1 < v {
      var b := CoverDepthTop(v);
      TopBitCovers(v, b);
    }
  }

  lemma CoverDepthBound(v: nat)
    ensures CoverDepth(v) <= 8
  {
  }

  lemma TopBitCovers(v: nat, b: nat)
    requires 2 <= v && Pow2(b) <= v - 1 < Pow2(b + 1)
    ensures LeastCover(v, b + 1)
  {
  }

  /** CoverDepth never exceeds 8 and is the needed depth exactly for arguments up to 256. */
  lemma CoverDepthCorrect(v: nat)
    ensures CoverDepth(v) <= 8 && Pow2(CoverDepth(v)) <= 256
    ensures CoverDepth(v) == Log2Ceil(v) <==> v <= 256
  {
    var c, d := CoverDepth(v), Log2Ceil(v);
    CoverDepthBound(v);
    SmallPowers();
    Pow2Monotone(c, 8);
    if v <= 256 {
      CoverDepthCovers(v);
      LeastCoverUnique(v, c, d);
    }
  }

  lemma Log2CeilBound(v: nat)
    requires v <= 256
    ensures Log2Ceil(v) <= 8 && (v == 256 ==> Log2Ceil(v) == 8)
  {
    SmallPowers();
    if v == 256 { LeastCoverUnique(v, 8, Log2Ceil(v)); }
    if Log2Ceil(v) > 8 { Pow2Monotone(8, Log2Ceil(v) - 1); }
  }

  // ----- the pure image of one merge

  /** The rows of tmp are enough for leaf i. */
  predicate Reaches(rows: nat, depth: nat, i: nat) { depth < rows && (i < Pow2(depth) || i < Pow2(rows - 1)) }

  /** The level at which `merge` stops and the value it stores there, starting at level j
      with h in the buffer. Its termination is that of the loop without a bound. */
  function Climb(H: HashFn, zh: seq<Chunk>, tmp: seq<Chunk>, size: nat, depth: nat, i: nat, j: nat, h: Chunk)
    : (r: (nat, Chunk))
    requires Reaches(|tmp|, depth, i) && j < |tmp| && depth <= |zh| && (i < Pow2(depth) ==> j <= depth)
    ensures j <= r.0 < |tmp| && (i < Pow2(depth) ==> r.0 <= depth)
    decreases |tmp| - j
  {
    ShrSmall(i, if i < Pow2(depth) then depth else |tmp| - 1);
    if Bit(i, j) then Climb(H, zh, tmp, size, depth, i, j + 1, HashPair(H, tmp[j], h))
    else if i == size && j < depth then Climb(H, zh, tmp, size, depth, i, j + 1, HashPair(H, h, zh[j]))
    else (j, h)
  }

  /** What `tmp` holds after i leaves: for each set bit j of i, the finished subtree of
      2^j leaves that ends where the lower bits begin. */
  ghost predicate Pending(H: HashFn, tmp: seq<Chunk>, xs: seq<Chunk>, i: nat) {
    forall j :: 0 <= j < |tmp| && Bit(i, j) ==> tmp[j] == Node(H, xs, j, Shr(i, j) - 1)
  }

  /** One step up at a set bit joins with the left neighbour; at a clear bit, with the right. */
  lemma NodeStep(H: HashFn, xs: seq<Chunk>, i: nat, j: nat)
    ensures Bit(i, j) ==> Node(H, xs, j + 1, Shr(i, j + 1)) == HashPair(H, Node(H, xs, j, Shr(i, j) - 1), Node(H, xs, j, Shr(i, j)))
    ensures !Bit(i, j) ==> Node(H, xs, j + 1, Shr(i, j + 1)) == HashPair(H, Node(H, xs, j, Shr(i, j)), Node(H, xs, j, Shr(i, j) + 1))
  {
    var k := Shr(i, j + 1);
    assert Shr(i, j) == 2 * k + (if Bit(i, j) then 1 else 0);
    assert Node(H, xs, j + 1, k) == HashPair(H, Node(H, xs, j, 2 * k), Node(H, xs, j, 2 * k + 1));
  }

  lemma {:induction false} ClimbLeaf(H: HashFn, zh: seq<Chunk>, tmp: seq<Chunk>, size: nat, depth: nat,
                                     i: nat, j: nat, h: Chunk, xs: seq<Chunk>)
    requires i < Pow2(depth) && j <= depth < |tmp| && depth <= |zh|
    requires i != size && Pending(H, tmp, xs, i) && LowOnes(i, j)
    requires h == Node(H, xs, j, Shr(i, j))
    ensures var (l, v) := Climb(H, zh, tmp, size, depth, i, j, h);
            LowOnes(i, l) && !Bit(i, l) && v == Node(H, xs, l, Shr(i, l))
    decreases depth - j
  {
    ShrSmall(i, depth);
    NodeStep(H, xs, i, j);
    if Bit(i, j) {
      ClimbLeaf(H, zh, tmp, size, depth, i, j + 1, HashPair(H, tmp[j], h), xs);
    }
  }

  /** Merging leaf i turns the pending subtrees for i leaves into those for i + 1. */
  lemma MergeLeaf(H: HashFn, zh: seq<Chunk>, tmp: seq<Chunk>, size: nat, depth: nat, i: nat, h: Chunk, xs: seq<Chunk>)
    requires i < Pow2(depth) && depth < |tmp| && depth <= |zh|
    requires i != size && Pending(H, tmp, xs, i) && h == Leaf(xs, i)
    ensures var (l, v) := Climb(H, zh, tmp, size, depth, i, 0, h);
            Pending(H, tmp[l := v], xs, i + 1)
  {
    ClimbLeaf(H, zh, tmp, size, depth, i, 0, h, xs);
    var (l, v) := Climb(H, zh, tmp, size, depth, i, 0, h);
    var now, i' := tmp[l := v], i + 1;
    forall j | 0 <= j < |now| && Bit(i', j) ensures now[j] == Node(H, xs, j, Shr(i', j) - 1) {
      Increment(i, l, j);
    }
  }

  /** The 256-leaf case: leaf 0 lands in the top slot, and slot 0 keeps what it held. */
  lemma MergeFirstOf256(H: HashFn, zh: seq<Chunk>, tmp: seq<Chunk>, h: Chunk, xs: seq<Chunk>)
    requires 8 < |tmp| && 8 <= |zh| && Leaf(xs, 0) == tmp[0]
    ensures 0 < Pow2(8)
    ensures var (l, v) := Climb(H, zh, tmp, 0, 8, 0, 0, h);
            Pending(H, tmp[l := v], xs, 1)
  {
    ClimbFromZero(H, zh, tmp, 8, 0, h);
    var (l, v) := Climb(H, zh, tmp, 0, 8, 0, 0, h);
    var now := tmp[l := v];
    forall j | 0 <= j < |now| && Bit(1, j) ensures now[j] == Node(H, xs, j, Shr(1, j) - 1) {
      ShrStays(1, j);
    }
  }

  lemma MergeEither(H: HashFn, zh: seq<Chunk>, tmp: seq<Chunk>, size: nat, depth: nat, i: nat, h: Chunk, xs: seq<Chunk>)
    requires i < size <= Pow2(depth) && depth < |tmp| && depth <= |zh|
    requires size <= 256 && (size == 256 ==> depth == 8) && Pending(H, tmp, xs, i)
    requires Leaf(xs, i) == if size == 256 && i == 0 then tmp[0] else h
    ensures var (l, v) := Climb(H, zh, tmp, size % 256, depth, i, 0, h);
            Pending(H, tmp[l := v], xs, i + 1)
  {
    if size == 256 && i == 0 {
      MergeFirstOf256(H, zh, tmp, h, xs);
    } else {
      MergeLeaf(H, zh, tmp, size % 256, depth, i, h, xs);
    }
  }

  /** The zero-hash rows that padding reads are the empty subtrees to the right of leaf `size`. */
  ghost predicate PadRows(H: HashFn, zh: seq<Chunk>, xs: seq<Chunk>, size: nat, depth: nat) {
    depth <= |zh| && forall j :: 0 <= j < depth && !Bit(size, j) ==> zh[j] == Node(H, xs, j, Shr(size, j) + 1)
  }

  lemma PadStep(H: HashFn, zh: seq<Chunk>, tmp: seq<Chunk>, depth: nat, size: nat, j: nat, xs: seq<Chunk>)
    requires j <= depth < |tmp| && Pending(H, tmp, xs, size) && PadRows(H, zh, xs, size, depth)
    ensures Bit(size, j) ==> HashPair(H, tmp[j], Node(H, xs, j, Shr(size, j))) == Node(H, xs, j + 1, Shr(size, j + 1))
    ensures !Bit(size, j) && j < depth ==>
              HashPair(H, Node(H, xs, j, Shr(size, j)), zh[j]) == Node(H, xs, j + 1, Shr(size, j + 1))
  {
    NodeStep(H, xs, size, j);
  }

  lemma {:induction false} ClimbPadding(H: HashFn, zh: seq<Chunk>, tmp: seq<Chunk>, depth: nat,
                                        size: nat, j: nat, h: Chunk, xs: seq<Chunk>)
    requires size < Pow2(depth) && j <= depth < |tmp|
    requires Pending(H, tmp, xs, size) && PadRows(H, zh, xs, size, depth)
    requires h == Node(H, xs, j, Shr(size, j))
    ensures Climb(H, zh, tmp, size, depth, size, j, h) == (depth, Node(H, xs, depth, 0))
    decreases depth - j
  {
    ShrSmall(size, depth);
    PadStep(H, zh, tmp, depth, size, j, xs);
    if Bit(size, j) {
      ClimbPadding(H, zh, tmp, depth, size, j + 1, HashPair(H, tmp[j], h), xs);
    } else if j < depth {
      ClimbPadding(H, zh, tmp, depth, size, j + 1, HashPair(H, h, zh[j]), xs);
    }
  }

  // ----- what a call computes, for any content P of table row 0

  predicate Full(n: nat) { Pow2(Log2Ceil(n)) == n }

  /** The leaf vector whose zero-padded tree the code really hashes when row 0 holds P.
      P stands in for the first missing leaves; a list of 256 leaves reaches `merge` with
      its 8-bit size argument equal to 0, which loses leaf 0. */
  function Effective(leaves: seq<Chunk>, P: Chunk, d: nat): (r: seq<Chunk>)
    requires |leaves| <= Pow2(d) && |leaves| <= 256
  {
    var n := |leaves|;
    if n == 256 then leaves[0 := ZERO]
    else if Full(n) && (n > 1 || d == 0) then leaves
    else if n % 2 == 1 || d == 0 then leaves + [P]
    else leaves + [P, P]
  }

  /** A power of two above n leaves room up to the next even index. */
  lemma PadSlack(n: nat, c: nat)
    requires n <= Pow2(c)
    ensures c == 0 ==> n <= 1
    ensures c > 0 ==> Pow2(c) >= 2 && (n != Pow2(c) ==> n + (if n % 2 == 1 then 1 else 2) <= Pow2(c))
  {
    if c > 0 && n < 2 * Pow2(c - 1) { BelowEven(n, Pow2(c - 1), n + (if n % 2 == 1 then 1 else 2)); }
  }

  lemma EffectiveFits(leaves: seq<Chunk>, P: Chunk, d: nat)
    requires |leaves| <= Pow2(d) && |leaves| <= 256
    ensures Log2Ceil(|leaves|) <= d
    ensures |Effective(leaves, P, d)| <= Pow2(d)
    ensures |leaves| > 1 || d == 0 ==> |Effective(leaves, P, d)| <= Pow2(Log2Ceil(|leaves|))
  {
    var n := |leaves|;
    var c := Log2Ceil(n);
    if d < c { Pow2Monotone(d, c - 1); }
    Pow2Monotone(c, d);
    PadSlack(n, c);
    PadSlack(n, d);
  }

  /** The root at the limit depth, and the new content of row 0. */
  function TreeResult(H: HashFn, P: Chunk, leaves: seq<Chunk>, d: nat): Chunk
    requires |leaves| <= Pow2(d) && |leaves| <= 256
  {
    EffectiveFits(leaves, P, d);
    PaddedRoot(H, Effective(leaves, P, d), d)
  }

  function NextPad(H: HashFn, P: Chunk, leaves: seq<Chunk>): Chunk
    requires |leaves| <= 256
  {
    if |leaves| == 0 || Full(|leaves|) then P else TreeResult(H, P, leaves, Log2Ceil(|leaves|))
  }

  /** A list hash: an empty list has its own branch; the second input otherwise is a constant. */
  function ListResult(H: HashFn, P: Chunk, leaves: seq<Chunk>, d: nat, mix: nat): Chunk
    requires |leaves| <= Pow2(d) && |leaves| <= 256
  {
    if leaves == [] then HashPair(H, if d == 0 then P else ZeroHash(H, d), P)
    else HashPair(H, TreeResult(H, P, leaves, d), U64Chunk(mix))
  }

  /** zh is the zero-hash table, except that row 0 holds P. */
  ghost predicate Table(H: HashFn, zh: seq<Chunk>, P: Chunk) {
    |zh| == 64 && zh[0] == P && forall j :: 1 <= j < 64 ==> zh[j] == ZeroHash(H, j)
  }

  /** xs continues n leaves by P up to the next even index, and ends there. */
  ghost predicate PaddedBy(xs: seq<Chunk>, n: nat, P: Chunk) {
    |xs| == n + (if n % 2 == 1 then 1 else 2) && forall k :: n <= k < |xs| ==> xs[k] == P
  }

  lemma TwiceProduct(a: nat, p: nat)
    ensures a * (2 * p) == 2 * (a * p)
  {
  }

  lemma BelowEven(n: nat, h: nat, len: nat)
    requires n < 2 * h && len <= n + (if n % 2 == 1 then 1 else 2)
    ensures len <= 2 * h
  {
  }

  lemma PadFits(n: nat, j: nat, len: nat)
    requires j > 0 && len <= n + (if n % 2 == 1 then 1 else 2)
    ensures len <= (Shr(n, j) + 1) * Pow2(j)
  {
    var a, p := Shr(n, j) + 1, Pow2(j - 1);
    ShrBounds(n, j);
    TwiceProduct(a, p);
    BelowEven(n, a * p, len);
  }

  /** P followed by zeros is what padding of an unfinished vector reads. */
  lemma PadRow(H: HashFn, zh: seq<Chunk>, P: Chunk, xs: seq<Chunk>, n: nat, j: nat)
    requires Table(H, zh, P) && PaddedBy(xs, n, P) && j < 64 && !Bit(n, j)
    ensures zh[j] == Node(H, xs, j, Shr(n, j) + 1)
  {
    if j > 0 {
      PadFits(n, j, |xs|);
      NodeBeyond(H, xs, j, Shr(n, j) + 1);
    }
  }

  lemma PadRowsHold(H: HashFn, zh: seq<Chunk>, P: Chunk, xs: seq<Chunk>, n: nat, depth: nat)
    requires Table(H, zh, P) && depth <= 64 && (depth > 0 ==> PaddedBy(xs, n, P))
    ensures PadRows(H, zh, xs, n, depth)
  {
    forall j | 0 <= j < depth && !Bit(n, j) ensures zh[j] == Node(H, xs, j, Shr(n, j) + 1) {
      PadRow(H, zh, P, xs, n, j);
    }
  }

  /** A tree of one leaf or none is never padded. */
  lemma SmallTreeKeepsRow(H: HashFn, P: Chunk, leaves: seq<Chunk>)
    requires |leaves| <= 1
    ensures NextPad(H, P, leaves) == P
  {
  }

  /** Above the cover depth the right-hand neighbours are empty. */
  lemma ExtensionRow(H: HashFn, zh: seq<Chunk>, P: Chunk, leaves: seq<Chunk>, d: nat, j: nat)
    requires |leaves| <= Pow2(d) && |leaves| <= 256 && Table(H, zh, NextPad(H, P, leaves))
    requires Log2Ceil(|leaves|) <= j < d && j < 64
    ensures zh[j] == Node(H, Effective(leaves, P, d), j, 1)
  {
    EffectiveFits(leaves, P, d);
    var xs := Effective(leaves, P, d);
    Pow2Monotone(Log2Ceil(|leaves|), j);
    if j > 0 {
      assert |xs| <= Pow2(j) by { if |leaves| <= 1 { assert Pow2(j) == 2 * Pow2(j - 1); } }
      NodeBeyond(H, xs, j, 1);
    } else {
      SmallTreeKeepsRow(H, P, leaves);
    }
  }

  /** The padding merge completes the tree at the cover depth. */
  lemma PadEffect(H: HashFn, zh: seq<Chunk>, P: Chunk, tmp: seq<Chunk>, leaves: seq<Chunk>, d: nat)
    requires Table(H, zh, P) && |leaves| <= Pow2(d) && |leaves| <= 256 && !Full(|leaves|)
    requires Log2Ceil(|leaves|) < |tmp| && Log2Ceil(|leaves|) <= 8
    requires Pending(H, tmp, Effective(leaves, P, d), |leaves|)
    ensures |leaves| < 256 && |leaves| % 256 == |leaves|
    ensures Climb(H, zh, tmp, |leaves| % 256, Log2Ceil(|leaves|), |leaves|, 0, P) == (Log2Ceil(|leaves|), NextPad(H, P, leaves))
    ensures NextPad(H, P, leaves) == Node(H, Effective(leaves, P, d), Log2Ceil(|leaves|), 0)
  {
    var n, c, xs := |leaves|, Log2Ceil(|leaves|), Effective(leaves, P, d);
    EffectivePads(leaves, P, d);
    PadRowsHold(H, zh, P, xs, n, c);
    ClimbPadding(H, zh, tmp, c, n, 0, P, xs);
    NextPadIsNode(H, P, leaves, d);
  }

  lemma NotFullIsSmall(n: nat)
    requires n <= 256 && !Full(n)
    ensures n % 256 == n < 256 && n < Pow2(Log2Ceil(n))
  {
    if n == 256 {
      Log2CeilBound(n);
      SmallPowers();
    }
  }

  lemma EffectivePads(leaves: seq<Chunk>, P: Chunk, d: nat)
    requires |leaves| <= Pow2(d) && |leaves| <= 256 && !Full(|leaves|)
    ensures |leaves| % 256 == |leaves| < 256 && |leaves| < Pow2(Log2Ceil(|leaves|))
    ensures Leaf(Effective(leaves, P, d), |leaves|) == P
    ensures Log2Ceil(|leaves|) > 0 ==> PaddedBy(Effective(leaves, P, d), |leaves|, P)
  {
    NotFullIsSmall(|leaves|);
    PadSlack(|leaves|, d);
  }

  lemma Repadded(H: HashFn, zh: seq<Chunk>, P: Chunk, v: Chunk)
    requires Table(H, zh, P)
    ensures Table(H, zh[0 := v], v)
  {
  }

  /** A full tree is pending at its cover depth. */
  lemma FullTop(H: HashFn, tmp: seq<Chunk>, xs: seq<Chunk>, n: nat, d: nat)
    requires n == Pow2(d) && d < |tmp| && Pending(H, tmp, xs, n)
    ensures tmp[d] == Node(H, xs, d, 0)
  {
    ShrPow2(d, d);
    assert Bit(n, d);
  }

  class Merkleizer {
    const H: HashFn
    const zerohashes: array<Chunk>

    /** Every reachable table: rows 1..63 are zero hashes, row 0 is anything. */
    ghost predicate Valid()
      reads zerohashes
    {
      zerohashes.Length == 64 && Table(H, zerohashes[..], zerohashes[0])
    }

    constructor (hash: HashFn)
      ensures H == hash && fresh(zerohashes) && zerohashes.Length == 64
    {
      H := hash;
      zerohashes := new Chunk[64](_ => ZERO);
    }

    /** InitZeroHashes fills rows 0..size; the table has rows 0..63. */
    method InitZeroHashes(size: nat)
      requires size < zerohashes.Length
      modifies zerohashes
      ensures forall j :: 0 <= j <= size ==> zerohashes[j] == ZeroHash(H, j)
      ensures zerohashes[size + 1..] == old(zerohashes[size + 1..])
    {
      zerohashes[0] := ZERO;
      for i := 0 to size
        invariant forall j :: 0 <= j <= i ==> zerohashes[j] == ZeroHash(H, j)
        invariant zerohashes[size + 1..] == old(zerohashes[size + 1..])
      {
        zerohashes[i + 1] := HashPair(H, zerohashes[i], zerohashes[i]);
      }
    }

    /** merge. The buffer is a row of any array of chunks, the table included. */
    method Merge(buf: array<Chunk>, row: nat, tmp: array<Chunk>, size: Byte, depth: nat, i: nat)
      returns (level: nat)
      requires row < buf.Length && (buf == zerohashes ==> row == 0) && tmp != buf && tmp != zerohashes
      requires Reaches(tmp.Length, depth, i) && depth <= zerohashes.Length
      modifies buf, tmp
      ensures var (l, v) := Climb(H, old(zerohashes[..]), old(tmp[..]), size, depth, i, 0, old(buf[row]));
              level == l && tmp[..] == old(tmp[..])[l := v] && buf[..] == old(buf[..])[row := v]
    {
      ghost var zh, was, out := zerohashes[..], tmp[..], buf[..];
      ghost var r := Climb(H, zh, was, size, depth, i, 0, buf[row]);
      var j := 0;
      while true
        invariant j < tmp.Length && (i < Pow2(depth) ==> j <= depth) && tmp[..] == was && buf[..] == out[row := buf[row]]
        invariant j == 0 ==> buf[row] == out[row]
        invariant r == Climb(H, zh, was, size, depth, i, j, buf[row])
        decreases tmp.Length - j
      {
        ShrSmall(i, if i < Pow2(depth) then depth else tmp.Length - 1);
        if Shr(i, j) % 2 == 0 {
          if i == size && j < depth {
            assert zerohashes[j] == zh[j];
            buf[row] := HashPair(H, buf[row], zerohashes[j]);
          } else {
            break;
          }
        } else {
          assert tmp[j] == was[j];
          buf[row] := HashPair(H, tmp[j], buf[row]);
        }
        j := j + 1;
      }
      level := j;
      tmp[j] := buf[row];
    }

    /** One leaf of the leaf loop (lines 182-183 and 227). */
    method MergeOne(hArr: array<Chunk>, tmp: array<Chunk>, size: nat, depth: nat, i: nat,
                    ghost leaves: seq<Chunk>, ghost xs: seq<Chunk>)
      requires hArr.Length == 1 && tmp != hArr && tmp != zerohashes && hArr != zerohashes && Valid()
      requires i < |leaves| == size <= 256 && depth == Log2Ceil(size) < tmp.Length
      requires i < |xs| && hArr[0] == leaves[i]
      requires if |leaves| == 256 && i == 0 then xs[0] == tmp[0] else xs[i] == leaves[i]
      requires Pending(H, tmp[..], xs, i)
      modifies hArr, tmp
      ensures Pending(H, tmp[..], xs, i + 1)
    {
      ghost var zh, was := zerohashes[..], tmp[..];
      Log2CeilBound(size);
      MergeEither(H, zh, was, size, depth, i, leaves[i], xs);
      ghost var after := was[Climb(H, zh, was, size % 256, depth, i, 0, leaves[i]).0 :=
                             Climb(H, zh, was, size % 256, depth, i, 0, leaves[i]).1];
      var level := Merge(hArr, 0, tmp, size % 256, depth, i);
      assert tmp[..] == after;
    }

    /** The padding merge (lines 188, 232): row 0 of the table is its buffer. */
    method PadMerge(tmp: array<Chunk>, size: nat, depth: nat, ghost limitDepth: nat, ghost leaves: seq<Chunk>)
      requires Valid() && tmp != zerohashes && limitDepth < tmp.Length && !Full(size)
      requires size == |leaves| <= Pow2(limitDepth) && size <= 256 && depth == Log2Ceil(size) <= limitDepth
      requires Pending(H, tmp[..], Effective(leaves, zerohashes[0], limitDepth), size)
      modifies tmp, zerohashes
      ensures Valid() && zerohashes[0] == NextPad(H, old(zerohashes[0]), leaves)
      ensures tmp[depth] == Node(H, Effective(leaves, old(zerohashes[0]), limitDepth), depth, 0)
    {
      ghost var P, zh, was, v := zerohashes[0], zerohashes[..], tmp[..], NextPad(H, zerohashes[0], leaves);
      Log2CeilBound(size);
      PadEffect(H, zh, P, was, leaves, limitDepth);
      var level := Merge(zerohashes, 0, tmp, size % 256, depth, size);
      assert zerohashes[..] == zh[0 := v] && tmp[..] == was[depth := v];
      Repadded(H, zh, P, v);
    }

    /** The padding branch (lines 186-189, 230-233). */
    method Pad(tmp: array<Chunk>, size: nat, depth: nat, ghost limitDepth: nat, ghost leaves: seq<Chunk>)
      requires Valid() && tmp != zerohashes && limitDepth < tmp.Length
      requires size == |leaves| <= Pow2(limitDepth) && size <= 256 && depth == Log2Ceil(size) <= limitDepth
      requires Pending(H, tmp[..], Effective(leaves, zerohashes[0], limitDepth), size)
      modifies tmp, zerohashes
      ensures Valid() && zerohashes[0] == NextPad(H, old(zerohashes[0]), leaves)
      ensures tmp[depth] == Node(H, Effective(leaves, old(zerohashes[0]), limitDepth), depth, 0)
    {
      if Pow2(depth) != size {
        PadMerge(tmp, size, depth, limitDepth, leaves);
      } else {
        FullTop(H, tmp[..], Effective(leaves, zerohashes[0], limitDepth), size, depth);
      }
    }

    /** The extension to the limit depth (lines 191-195, 235-239). */
    method Extend(tmp: array<Chunk>, depth: nat, limitDepth: nat, ghost P: Chunk, ghost leaves: seq<Chunk>)
      requires Valid() && tmp != zerohashes && limitDepth < tmp.Length && limitDepth <= 8
      requires |leaves| <= Pow2(limitDepth) && |leaves| <= 256 && depth == Log2Ceil(|leaves|) <= limitDepth
      requires zerohashes[0] == NextPad(H, P, leaves)
      requires tmp[depth] == Node(H, Effective(leaves, P, limitDepth), depth, 0)
      modifies tmp
      ensures tmp[limitDepth] == TreeResult(H, P, leaves, limitDepth)
    {
      ghost var xs := Effective(leaves, P, limitDepth);
      EffectiveFits(leaves, P, limitDepth);
      for j := depth to limitDepth
        invariant tmp[j] == Node(H, xs, j, 0)
      {
        ExtensionRow(H, zerohashes[..], P, leaves, limitDepth, j);
        tmp[j + 1] := HashPair(H, tmp[j], zerohashes[j]);
      }
      NodeIsPaddedRoot(H, xs, limitDepth);
    }
  }

  lemma {:induction false} ShrStays(i: nat, j: nat)
    requires i <= 1
    ensures Shr(i, j) == if j == 0 then i else 0
  {
    if j > 0 { ShrStays(i, j - 1); }
  }

  lemma NothingPending(H: HashFn, tmp: seq<Chunk>, xs: seq<Chunk>)
    ensures Pending(H, tmp, xs, 0)
  {
    forall j | 0 <= j < |tmp| ensures !Bit(0, j) { ShrStays(0, j); }
  }

  /** With size argument 0, leaf 0 is taken for the padding call and climbs to the top. */
  lemma {:induction false} ClimbFromZero(H: HashFn, zh: seq<Chunk>, tmp: seq<Chunk>, depth: nat, j: nat, h: Chunk)
    requires j <= depth < |tmp| && depth <= |zh|
    ensures Climb(H, zh, tmp, 0, depth, 0, j, h).0 == depth
    decreases depth - j
  {
    ShrStays(0, j);
    if j < depth { ClimbFromZero(H, zh, tmp, depth, j + 1, HashPair(H, h, zh[j])); }
  }

  lemma NextPadIsNode(H: HashFn, P: Chunk, leaves: seq<Chunk>, d: nat)
    requires |leaves| <= Pow2(d) && |leaves| < 256 && !Full(|leaves|)
    ensures Log2Ceil(|leaves|) <= d
    ensures NextPad(H, P, leaves) == Node(H, Effective(leaves, P, d), Log2Ceil(|leaves|), 0)
  {
    var c := Log2Ceil(|leaves|);
    EffectiveFits(leaves, P, d);
    if |leaves| > 0 {
      EffectiveFits(leaves, P, c);
      NodeIsPaddedRoot(H, Effective(leaves, P, c), c);
    }
  }
}
