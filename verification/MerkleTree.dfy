/** The reference that lib/merkleization.h speeds up: the recursive Merkle root of a
    zero-padded leaf vector, the iterated zero hashes, and collision extraction. */
module MerkleTree {
  import opened Words

  /** The 64-byte input of `hashsum`. */
  function Join(a: Chunk, b: Chunk): (r: seq<Byte>)
    ensures |r| == 64 && r[..32] == a && r[32..] == b
  {
    var x: seq<Byte>, y: seq<Byte> := a, b;
    x + y
  }

  function HashPair(H: HashFn, a: Chunk, b: Chunk): Chunk { H(Join(a, b)) }

  /** Root of a full tree: hash of the roots of the two halves. */
  function MerkleRoot(H: HashFn, xs: seq<Chunk>, d: nat): Chunk
    requires |xs| == Pow2(d)
    decreases d
  {
    if d == 0 then xs[0]
    else HashPair(H, MerkleRoot(H, xs[..Pow2(d - 1)], d - 1), MerkleRoot(H, xs[Pow2(d - 1)..], d - 1))
  }

  function ZeroPadded(xs: seq<Chunk>, d: nat): (r: seq<Chunk>)
    requires |xs| <= Pow2(d)
    ensures |r| == Pow2(d)
  {
    xs + Zeros(Pow2(d) - |xs|)
  }

  /** merkleize(chunks, limit) of the SSZ specification, for a limit of 2^d chunks. */
  function PaddedRoot(H: HashFn, xs: seq<Chunk>, d: nat): Chunk
    requires |xs| <= Pow2(d)
  {
    MerkleRoot(H, ZeroPadded(xs, d), d)
  }

  /** The root of a tree of depth d whose leaves are all zero. */
  function ZeroHash(H: HashFn, d: nat): Chunk {
    if d == 0 then ZERO else HashPair(H, ZeroHash(H, d - 1), ZeroHash(H, d - 1))
  }

  // ----- nodes addressed by level and index, leaves beyond xs being zero

  function Leaf(xs: seq<Chunk>, k: nat): Chunk { if k < |xs| then xs[k] else ZERO }

  function Node(H: HashFn, xs: seq<Chunk>, j: nat, k: nat): Chunk
    decreases j
  {
    if j == 0 then Leaf(xs, k)
    else HashPair(H, Node(H, xs, j - 1, 2 * k), Node(H, xs, j - 1, 2 * k + 1))
  }

  lemma {:induction false} NodeBeyond(H: HashFn, xs: seq<Chunk>, j: nat, k: nat)
    requires |xs| <= k * Pow2(j)
    ensures Node(H, xs, j, k) == ZeroHash(H, j)
    decreases j
  {
    if j > 0 {
      var p := Pow2(j - 1);
      SplitSlice(k, p);
      NodeBeyond(H, xs, j - 1, 2 * k);
      NodeBeyond(H, xs, j - 1, 2 * k + 1);
    }
  }

  /** Nodes depend on the leaves only, so explicit zero padding changes nothing. */
  lemma {:induction false} NodeAgrees(H: HashFn, xs: seq<Chunk>, ys: seq<Chunk>, j: nat, k: nat)
    requires forall n: nat :: Leaf(xs, n) == Leaf(ys, n)
    ensures Node(H, xs, j, k) == Node(H, ys, j, k)
    decreases j
  {
    if j > 0 {
      NodeAgrees(H, xs, ys, j - 1, 2 * k);
      NodeAgrees(H, xs, ys, j - 1, 2 * k + 1);
    }
  }

  lemma SplitSlice(k: nat, p: nat)
    ensures k * (2 * p) == (2 * k) * p
    ensures k * (2 * p) + p == (2 * k + 1) * p
  {
  }

  /** Index of the first leaf below node k of level j. */
  function FirstLeaf(j: nat, k: nat): nat { if j == 0 then k else FirstLeaf(j - 1, 2 * k) }

  lemma {:induction false} FirstLeafNext(j: nat, k: nat)
    ensures FirstLeaf(j, k + 1) == FirstLeaf(j, k) + Pow2(j)
    ensures FirstLeaf(j, 0) == 0
  {
    if j > 0 {
      FirstLeafNext(j - 1, 2 * k);
      FirstLeafNext(j - 1, 2 * k + 1);
    }
  }

  lemma FirstLeafHalves(j: nat, k: nat)
    requires j > 0
    ensures Pow2(j) == Pow2(j - 1) + Pow2(j - 1) && FirstLeaf(j - 1, 2 * k) == FirstLeaf(j, k)
    ensures FirstLeaf(j - 1, 2 * k + 1) == FirstLeaf(j, k) + Pow2(j - 1)
  {
    FirstLeafNext(j - 1, 2 * k);
  }

  lemma RootOfHalves(H: HashFn, xs: seq<Chunk>, j: nat, lo: nat, p: nat, hi: nat)
    requires j > 0 && p == Pow2(j - 1) && hi == lo + p + p <= |xs|
    ensures hi - lo == Pow2(j)
    ensures MerkleRoot(H, xs[lo..hi], j) == HashPair(H, MerkleRoot(H, xs[lo..lo + p], j - 1), MerkleRoot(H, xs[lo + p..hi], j - 1))
  {
    assert xs[lo..hi][..p] == xs[lo..lo + p] && xs[lo..hi][p..] == xs[lo + p..hi];
  }

  lemma {:induction false} NodeIsSliceRoot(H: HashFn, xs: seq<Chunk>, j: nat, k: nat, lo: nat, hi: nat)
    requires lo == FirstLeaf(j, k) && hi == lo + Pow2(j) <= |xs|
    ensures Node(H, xs, j, k) == MerkleRoot(H, xs[lo..hi], j)
    decreases j
  {
    if j > 0 {
      var p := Pow2(j - 1);
      FirstLeafHalves(j, k);
      NodeIsSliceRoot(H, xs, j - 1, 2 * k, lo, lo + p);
      NodeIsSliceRoot(H, xs, j - 1, 2 * k + 1, lo + p, hi);
      RootOfHalves(H, xs, j, lo, p, hi);
    }
  }

  /** The top node is the recursive root of the zero-padded leaf vector. */
  lemma NodeIsPaddedRoot(H: HashFn, xs: seq<Chunk>, d: nat)
    requires |xs| <= Pow2(d)
    ensures Node(H, xs, d, 0) == PaddedRoot(H, xs, d)
  {
    var ys := ZeroPadded(xs, d);
    NodeAgrees(H, xs, ys, d, 0);
    FirstLeafNext(d, 0);
    NodeIsSliceRoot(H, ys, d, 0, 0, Pow2(d));
    assert ys[0..Pow2(d)] == ys;
  }

  // ----- collisions

  ghost predicate Collision(H: HashFn, x: seq<Byte>, y: seq<Byte>) {
    |x| == 64 && |y| == 64 && x != y && H(x) == H(y)
  }

  /** No two strings of S collide. S is always a finite set of strings that were really hashed:
      no function from 64 to 32 bytes is free of collisions on all inputs. */
  ghost predicate CollisionFree(H: HashFn, S: set<seq<Byte>>) {
    forall x, y :: x in S && y in S ==> !Collision(H, x, y)
  }

  /** No string of S, again a finite set of strings really hashed, has the digest c. */
  ghost predicate Avoids(H: HashFn, S: set<seq<Byte>>, c: Chunk) { forall x :: x in S ==> H(x) != c }

  ghost predicate ZeroFree(H: HashFn, S: set<seq<Byte>>) { Avoids(H, S, ZERO) }

  /** The strings hashed for the root of a full tree. */
  ghost function Hashed(H: HashFn, xs: seq<Chunk>, d: nat): set<seq<Byte>>
    requires |xs| == Pow2(d)
    decreases d
  {
    if d == 0 then {}
    else
      var left, right := xs[..Pow2(d - 1)], xs[Pow2(d - 1)..];
      {Join(MerkleRoot(H, left, d - 1), MerkleRoot(H, right, d - 1))} + Hashed(H, left, d - 1) + Hashed(H, right, d - 1)
  }

  /** The strings hashed for the root of the zero-padded tree. */
  ghost function PaddedHashed(H: HashFn, xs: seq<Chunk>, d: nat): set<seq<Byte>>
    requires |xs| <= Pow2(d)
  {
    Hashed(H, ZeroPadded(xs, d), d)
  }

  /** Equal digests of two pairs give either equal pairs or a collision. */
  lemma PairInjective(H: HashFn, a: Chunk, b: Chunk, c: Chunk, d: Chunk)
    requires HashPair(H, a, b) == HashPair(H, c, d)
    ensures (a == c && b == d) || Collision(H, Join(a, b), Join(c, d))
  {
  }

  lemma PairBinds(H: HashFn, S: set<seq<Byte>>, a: Chunk, b: Chunk, c: Chunk, d: Chunk)
    requires CollisionFree(H, S) && Join(a, b) in S && Join(c, d) in S && HashPair(H, a, b) == HashPair(H, c, d)
    ensures a == c && b == d
  {
    PairInjective(H, a, b, c, d);
  }

  /** Two different leaf vectors with the same root yield two distinct 64-byte inputs with the
      same digest, one hashed for the first root and one for the second. */
  lemma {:induction false} ExtractCollision(H: HashFn, xs: seq<Chunk>, ys: seq<Chunk>, d: nat)
    returns (x: seq<Byte>, y: seq<Byte>)
    requires |xs| == |ys| == Pow2(d) && xs != ys
    requires MerkleRoot(H, xs, d) == MerkleRoot(H, ys, d)
    ensures Collision(H, x, y) && x in Hashed(H, xs, d) && y in Hashed(H, ys, d)
    decreases d
  {
    var p := Pow2(d) / 2;
    if d == 0 {
      assert false;
    } else {
      var a, b := MerkleRoot(H, xs[..p], d - 1), MerkleRoot(H, xs[p..], d - 1);
      var e, f := MerkleRoot(H, ys[..p], d - 1), MerkleRoot(H, ys[p..], d - 1);
      PairInjective(H, a, b, e, f);
      if a != e || b != f {
        x, y := Join(a, b), Join(e, f);
      } else if xs[..p] != ys[..p] {
        x, y := ExtractCollision(H, xs[..p], ys[..p], d - 1);
      } else {
        assert xs == xs[..p] + xs[p..] && ys == ys[..p] + ys[p..];
        x, y := ExtractCollision(H, xs[p..], ys[p..], d - 1);
      }
    }
  }

  /** Padded roots agree exactly when the padded vectors do, unless strings hashed for the one
      and the other collide. */
  lemma PaddedRootInjective(H: HashFn, xs: seq<Chunk>, ys: seq<Chunk>, d: nat)
    requires |xs| <= Pow2(d) && |ys| <= Pow2(d)
    requires CollisionFree(H, PaddedHashed(H, xs, d) + PaddedHashed(H, ys, d))
    ensures PaddedRoot(H, xs, d) == PaddedRoot(H, ys, d) <==> ZeroPadded(xs, d) == ZeroPadded(ys, d)
  {
    var a, b := ZeroPadded(xs, d), ZeroPadded(ys, d);
    if MerkleRoot(H, a, d) == MerkleRoot(H, b, d) && a != b {
      var x, y := ExtractCollision(H, a, b, d);
    }
  }

  lemma HashedHalves(H: HashFn, S: set<seq<Byte>>, xs: seq<Chunk>, d: nat) returns (a: Chunk, right: seq<Chunk>, b: Chunk)
    requires |xs| == Pow2(d) && d > 0 && Hashed(H, xs, d) <= S
    ensures |right| == Pow2(d - 1) && right[|right| - 1] == xs[|xs| - 1]
    ensures b == MerkleRoot(H, right, d - 1) && MerkleRoot(H, xs, d) == HashPair(H, a, b)
    ensures Join(a, b) in S && Hashed(H, right, d - 1) <= S
  {
    var left := xs[..Pow2(d - 1)];
    right := xs[Pow2(d - 1)..];
    a, b := MerkleRoot(H, left, d - 1), MerkleRoot(H, right, d - 1);
    assert Join(a, b) in Hashed(H, xs, d) && Hashed(H, right, d - 1) <= Hashed(H, xs, d);
  }

  /** If trees of depths c < d have one root, the last leaf of the first is an inner node of the
      second, unless strings hashed for the one and the other collide. */
  lemma {:induction false} DepthsDiffer(H: HashFn, S: set<seq<Byte>>, xs: seq<Chunk>, c: nat, ys: seq<Chunk>, d: nat)
    returns (x: seq<Byte>)
    requires |xs| == Pow2(c) && |ys| == Pow2(d) && c < d && MerkleRoot(H, xs, c) == MerkleRoot(H, ys, d)
    requires CollisionFree(H, S) && Hashed(H, xs, c) <= S && Hashed(H, ys, d) <= S
    ensures x in S && |x| == 64 && H(x) == xs[|xs| - 1]
    decreases c
  {
    var e, right, f := HashedHalves(H, S, ys, d);
    if c == 0 {
      x := Join(e, f);
    } else {
      var a, half, b := HashedHalves(H, S, xs, c);
      PairBinds(H, S, a, b, e, f);
      x := DepthsDiffer(H, S, half, c - 1, right, d - 1);
    }
  }

  lemma RootsDiffer(H: HashFn, S: set<seq<Byte>>, xs: seq<Chunk>, c: nat, ys: seq<Chunk>, d: nat)
    requires |xs| == Pow2(c) && |ys| == Pow2(d) && c < d
    requires CollisionFree(H, S) && Hashed(H, xs, c) <= S && Hashed(H, ys, d) <= S && Avoids(H, S, xs[|xs| - 1])
    ensures MerkleRoot(H, xs, c) != MerkleRoot(H, ys, d)
  {
    if MerkleRoot(H, xs, c) == MerkleRoot(H, ys, d) {
      var x := DepthsDiffer(H, S, xs, c, ys, d);
    }
  }
}
