/** The list hashers of lib/merkleization.h against hash_tree_root of List[T, N] in the SSZ
    specification: depth, packing and length. */
module SszLists {
  import opened Words
  import opened MerkleTree
  import opened Hex
  import opened Merkleization
  import opened ListHasher
  import opened LongLists
  import opened MerkleRuns

  /** hash_tree_root of List[T, limit] in the SSZ specification, from the elements' roots. */
  function SszListRoot(H: HashFn, leaves: seq<Chunk>, limit: nat): Chunk
    requires |leaves| <= limit
  {
    HashPair(H, PaddedRoot(H, leaves, Log2Ceil(limit)), U64Chunk(|leaves|))
  }

  lemma PaddedLast(xs: seq<Chunk>, c: nat)
    requires |xs| <= Pow2(c)
    ensures ZeroPadded(xs, c)[Pow2(c) - 1] == Leaf(xs, Pow2(c) - 1)
  {
  }

  lemma PaddedRootsDiffer(H: HashFn, S: set<seq<Byte>>, xs: seq<Chunk>, c: nat, ys: seq<Chunk>, d: nat)
    requires |xs| <= Pow2(c) && |ys| <= Pow2(d) && c < d
    requires CollisionFree(H, S) && PaddedHashed(H, xs, c) <= S && PaddedHashed(H, ys, d) <= S && Avoids(H, S, Leaf(xs, Pow2(c) - 1))
    ensures PaddedRoot(H, xs, c) != PaddedRoot(H, ys, d)
  {
    var a, b, last := ZeroPadded(xs, c), ZeroPadded(ys, d), Leaf(xs, Pow2(c) - 1);
    assert a[|a| - 1] == last by { PaddedLast(xs, c); }
    assert Hashed(H, a, c) <= S && Hashed(H, b, d) <= S;
    RootsDiffer(H, S, a, c, b, d);
  }

  /** Trees of two depths have different roots, whatever is mixed in, unless strings hashed for
      them collide or one hashes to the last leaf of the smaller tree. */
  lemma DepthMatters(H: HashFn, xs: seq<Chunk>, c: nat, m: nat, ys: seq<Chunk>, d: nat, n: nat)
    requires |xs| <= Pow2(c) && |ys| <= Pow2(d) && c < d
    requires CollisionFree(H, MixedStrings(H, xs, c, m) + MixedStrings(H, ys, d, n))
    requires Avoids(H, MixedStrings(H, xs, c, m) + MixedStrings(H, ys, d, n), Leaf(xs, Pow2(c) - 1))
    ensures HashPair(H, PaddedRoot(H, xs, c), U64Chunk(m)) != HashPair(H, PaddedRoot(H, ys, d), U64Chunk(n))
  {
    var S := MixedStrings(H, xs, c, m) + MixedStrings(H, ys, d, n);
    var r, s := PaddedRoot(H, xs, c), PaddedRoot(H, ys, d);
    if HashPair(H, r, U64Chunk(m)) == HashPair(H, s, U64Chunk(n)) {
      PairBinds(H, S, r, U64Chunk(m), s, U64Chunk(n));
    }
    PaddedRootsDiffer(H, S, xs, c, ys, d);
  }

  /** The strings hashed for a list, by the code and by the standard. */
  ghost function ListStrings(H: HashFn, leaves: seq<Chunk>, max: nat, mix: nat): set<seq<Byte>>
    requires |leaves| <= Pow2(CoverDepth(max)) && |leaves| <= max
  {
    MixedStrings(H, leaves, CoverDepth(max), Mixed(leaves, mix)) + MixedStrings(H, leaves, Log2Ceil(max), |leaves|)
  }

  /** From an intact table a list hasher meets the SSZ standard exactly when its limit needs no
      more than the eight levels CoverDepth can count, and the list is empty or its length
      happens to be the constant mixed in. */
  lemma ListIsSszIff(H: HashFn, leaves: seq<Chunk>, max: nat, mix: nat)
    requires |leaves| <= Pow2(CoverDepth(max)) && |leaves| <= max && |leaves| < 256 && mix < Pow256(8)
    requires CollisionFree(H, ListStrings(H, leaves, max, mix))
    requires max > 256 ==> Avoids(H, ListStrings(H, leaves, max, mix), Leaf(leaves, Pow2(CoverDepth(max)) - 1))
    ensures ListResult(H, ZERO, leaves, CoverDepth(max), mix) == SszListRoot(H, leaves, max)
            <==> max <= 256 && (leaves == [] || |leaves| == mix)
  {
    IntactList(H, leaves, CoverDepth(max), mix);
    if max > 256 {
      DeepListDiffers(H, leaves, max, mix);
    } else {
      FlatLimit(max);
      LengthDecides(H, leaves, Log2Ceil(max), Mixed(leaves, mix));
    }
  }

  lemma DeepListDiffers(H: HashFn, leaves: seq<Chunk>, max: nat, mix: nat)
    requires |leaves| <= Pow2(CoverDepth(max)) && |leaves| <= max && max > 256 && CollisionFree(H, ListStrings(H, leaves, max, mix))
    requires Avoids(H, ListStrings(H, leaves, max, mix), Leaf(leaves, Pow2(CoverDepth(max)) - 1))
    ensures HashPair(H, PaddedRoot(H, leaves, CoverDepth(max)), U64Chunk(Mixed(leaves, mix))) != SszListRoot(H, leaves, max)
  {
    var c, d, m, n := CoverDepth(max), Log2Ceil(max), Mixed(leaves, mix), |leaves|;
    DeepLimit(max);
    DepthMatters(H, leaves, c, m, leaves, d, n);
  }

  lemma FlatLimit(max: nat)
    requires max <= 256
    ensures CoverDepth(max) == Log2Ceil(max)
  {
    CoverDepthCorrect(max);
  }

  /** At one depth the number mixed in decides. */
  lemma LengthDecides(H: HashFn, leaves: seq<Chunk>, d: nat, length: nat)
    requires |leaves| <= Pow2(d) && |leaves| < 256 && length < Pow256(8)
    requires CollisionFree(H, MixedStrings(H, leaves, d, length) + MixedStrings(H, leaves, d, |leaves|))
    ensures HashPair(H, PaddedRoot(H, leaves, d), U64Chunk(length)) == HashPair(H, PaddedRoot(H, leaves, d), U64Chunk(|leaves|))
            <==> length == |leaves|
  {
    var r, S := PaddedRoot(H, leaves, d), MixedStrings(H, leaves, d, length) + MixedStrings(H, leaves, d, |leaves|);
    if HashPair(H, r, U64Chunk(length)) == HashPair(H, r, U64Chunk(|leaves|)) {
      PairBinds(H, S, r, U64Chunk(length), r, U64Chunk(|leaves|));
      SmallPow256(|leaves|);
      U64ChunkInjective(length, |leaves|);
    }
  }

  lemma DeepLimit(max: nat)
    requires max > 256
    ensures CoverDepth(max) <= 8 < Log2Ceil(max)
  {
    CoverDepthCorrect(max);
    SmallPowers();
    if Log2Ceil(max) <= 8 { Pow2Monotone(Log2Ceil(max), 8); }
  }

  // ----- lists of numbers, which the standard packs four to a chunk

  function NumberLeaves(nums: seq<U64>): (r: seq<Chunk>)
    ensures |r| == |nums|
  {
    if nums == [] then [] else NumberLeaves(nums[..|nums| - 1]) + [U64Chunk(nums[|nums| - 1])]
  }

  /** Four numbers from index k on, zero beyond the end: eight bytes for each. */
  function FourNumbers(nums: seq<U64>, k: nat): (r: Chunk) {
    seq(32, b requires 0 <= b < 32 => if k + b / 8 < |nums| then U64Chunk(nums[k + b / 8])[b % 8] else 0)
  }

  /** pack of the SSZ specification: the first n chunks. */
  function PackNumbers(nums: seq<U64>, n: nat): (r: seq<Chunk>)
    ensures |r| == n
  {
    if n == 0 then [] else PackNumbers(nums, n - 1) + [FourNumbers(nums, 4 * (n - 1))]
  }

  function NumberChunks(n: nat): nat { (n + 3) / 4 }

  lemma {:induction false} PackAt(nums: seq<U64>, n: nat, c: nat)
    requires c < n
    ensures PackNumbers(nums, n)[c] == FourNumbers(nums, 4 * c)
  {
    if c < n - 1 { PackAt(nums, n - 1, c); }
  }

  lemma FourthAt(nums: seq<U64>, k: nat, x: nat, j: nat, b: nat)
    requires j < 4 && b < 8 && x == 8 * j + b && k + j < |nums|
    ensures FourNumbers(nums, k)[x] == U64Chunk(nums[k + j])[b]
  {
    assert x / 8 == j && x % 8 == b;
  }

  /** The standard puts byte b of number 4q + j into chunk q, behind the j numbers before it. */
  lemma NumberPlaces(nums: seq<U64>, q: nat, j: nat, b: nat)
    requires j < 4 && b < 8 && 4 * q + j < |nums|
    ensures q < NumberChunks(|nums|) && PackNumbers(nums, NumberChunks(|nums|))[q][8 * j + b] == U64Chunk(nums[4 * q + j])[b]
  {
    PackAt(nums, NumberChunks(|nums|), q);
    FourthAt(nums, 4 * q, 8 * j + b, j, b);
  }

  /** The code gives every number a chunk of its own. */
  lemma {:induction false} LeafAt(nums: seq<U64>, i: nat)
    requires i < |nums|
    ensures NumberLeaves(nums)[i] == U64Chunk(nums[i])
    decreases |nums|
  {
    if i < |nums| - 1 { LeafAt(nums[..|nums| - 1], i); }
  }

  /** hash_tree_root of List[uint64, limit]. */
  function SszNumbersRoot(H: HashFn, nums: seq<U64>, limit: nat): Chunk
    requires |nums| <= limit
  {
    HashPair(H, PaddedRoot(H, PackNumbers(nums, NumberChunks(|nums|)), Log2Ceil(NumberChunks(limit))), U64Chunk(|nums|))
  }

  /** The strings hashed for a list of numbers by htru64list and by the standard; for an empty
      list also those of the zero hashes. */
  ghost function NumbersStrings(H: HashFn, zh: seq<Chunk>, nums: seq<U64>, limit: nat): set<seq<Byte>>
    requires |nums| <= limit && Suffice(zh, |nums|, CoverDepth(limit), Rows(CoverDepth(limit)))
  {
    var c := CoverDepth(limit);
    MixedStrings(H, PackNumbers(nums, NumberChunks(|nums|)), Log2Ceil(NumberChunks(limit)), |nums|)
    + (if nums == [] then MixedStrings(H, [], c, 0)
       else {Join(StreamTree(H, zh, NumberLeaves(nums), c, Rows(c)), U64Chunk(limit))})
  }

  /** An empty list is not hashed as the standard says where that needs more levels than
      CoverDepth counts. */
  lemma NoNumbersNeverSsz(H: HashFn, limit: nat)
    requires CoverDepth(limit) < Log2Ceil(NumberChunks(limit))
    requires var S := MixedStrings(H, [], CoverDepth(limit), 0) + MixedStrings(H, [], Log2Ceil(NumberChunks(limit)), 0);
             CollisionFree(H, S) && ZeroFree(H, S)
    ensures ListResult(H, ZERO, [], CoverDepth(limit), limit) != SszNumbersRoot(H, [], limit)
  {
    IntactList(H, [], CoverDepth(limit), limit);
    DepthMatters(H, [], CoverDepth(limit), 0, [], Log2Ceil(NumberChunks(limit)), 0);
  }

  /** There, no list of fewer numbers than the limit is, of whatever length: from an intact
      table, htru64list never meets the standard. */
  lemma NumbersNeverSsz(H: HashFn, zh: seq<Chunk>, nums: seq<U64>, limit: U64)
    requires Table(H, zh, ZERO) && |nums| < limit && Suffice(zh, |nums|, CoverDepth(limit), Rows(CoverDepth(limit)))
    requires 0 < CoverDepth(limit) < Log2Ceil(NumberChunks(limit))
    requires CollisionFree(H, NumbersStrings(H, zh, nums, limit)) && (nums == [] ==> ZeroFree(H, NumbersStrings(H, zh, nums, limit)))
    ensures StreamResult(H, zh, NumberLeaves(nums), CoverDepth(limit), limit) != SszNumbersRoot(H, nums, limit)
  {
    var c, d, S := CoverDepth(limit), Log2Ceil(NumberChunks(limit)), NumbersStrings(H, zh, nums, limit);
    if nums == [] {
      FitsIsList(H, zh, ZERO, [], c, limit);
      FreeSubset(H, S, MixedStrings(H, [], c, 0) + MixedStrings(H, [], d, 0));
      NoNumbersNeverSsz(H, limit);
    } else {
      var r, s := StreamTree(H, zh, NumberLeaves(nums), c, Rows(c)), PaddedRoot(H, PackNumbers(nums, NumberChunks(|nums|)), d);
      if HashPair(H, r, U64Chunk(limit)) == HashPair(H, s, U64Chunk(|nums|)) {
        PairBinds(H, S, r, U64Chunk(limit), s, U64Chunk(|nums|));
        LengthDiffers(|nums|, limit);
      }
    }
  }

  /** The 256 numbers that are hashed of a full list. */
  function RunOf(nums: seq<U64>, q: nat): (r: seq<Chunk>)
    requires q > 1 && |nums| == 512 * q
    ensures |r| == 256
  {
    NumberLeaves(nums)[512 * (q - 1)..512 * (q - 1) + 256]
  }

  lemma FullDepth(limit: nat, q: nat)
    requires q > 1 && limit == 512 * q
    ensures 256 == Pow2(CoverDepth(limit))
  {
    var c := WholeBlockCase(limit, q);
  }

  /** The strings hashed for a full list, by the code and by the standard. */
  ghost function FullStrings(H: HashFn, xs: seq<Chunk>, c: nat, ys: seq<Chunk>, d: nat, limit: nat): set<seq<Byte>>
    requires |xs| <= Pow2(c) && |ys| <= Pow2(d)
  {
    MixedStrings(H, xs, c, limit) + MixedStrings(H, ys, d, limit)
  }

  lemma FullTree(H: HashFn, zh: seq<Chunk>, nums: seq<U64>, c: nat, q: nat)
    requires Table(H, zh, ZERO) && q > 1 && |nums| == 512 * q && c == CoverDepth(|nums|) && Suffice(zh, |nums|, c, Rows(c))
    ensures 256 <= Pow2(c) && StreamTree(H, zh, NumberLeaves(nums), c, Rows(c)) == PaddedRoot(H, RunOf(nums, q), c)
  {
    OnlyBlockBefore(H, zh, ZERO, NumberLeaves(nums), c, Rows(c), q);
  }

  lemma FullResult(H: HashFn, zh: seq<Chunk>, nums: seq<U64>, c: nat, limit: nat, root: Chunk)
    requires nums != [] && Suffice(zh, |nums|, c, Rows(c)) && StreamTree(H, zh, NumberLeaves(nums), c, Rows(c)) == root
    ensures StreamResult(H, zh, NumberLeaves(nums), c, limit) == HashPair(H, root, U64Chunk(limit))
  {
  }

  /** Nor is a list of as many numbers as the limit, a multiple of 512: of it only 256 numbers xs
      are hashed. Here no string hashed may have the last of these numbers as its digest. */
  lemma FullNumbersNeverSsz(H: HashFn, zh: seq<Chunk>, nums: seq<U64>, limit: U64, q: nat, xs: seq<Chunk>, ys: seq<Chunk>, c: nat, d: nat)
    requires Table(H, zh, ZERO) && q > 1 && |nums| == limit == 512 * q && c == CoverDepth(limit) && Suffice(zh, limit, c, Rows(c))
    requires xs == RunOf(nums, q) && ys == PackNumbers(nums, NumberChunks(limit)) && |xs| == Pow2(c)
    requires c < d == Log2Ceil(NumberChunks(limit))
    requires CollisionFree(H, FullStrings(H, xs, c, ys, d, limit)) && Avoids(H, FullStrings(H, xs, c, ys, d, limit), Leaf(xs, Pow2(c) - 1))
    ensures StreamResult(H, zh, NumberLeaves(nums), c, limit) != SszNumbersRoot(H, nums, limit)
  {
    FullTree(H, zh, nums, c, q);
    FullResult(H, zh, nums, c, limit, PaddedRoot(H, xs, c));
    DepthMatters(H, xs, c, limit, ys, d, limit);
  }

  lemma LengthDiffers(n: nat, limit: U64)
    requires n < limit
    ensures U64Chunk(limit) != U64Chunk(n)
  {
    assert Pow256(2) == 256 * Pow256(1) && Pow256(4) == 256 * Pow256(3) && Pow256(6) == 256 * Pow256(5) && Pow256(8) == 256 * Pow256(7);
    if U64Chunk(limit) == U64Chunk(n) { U64ChunkInjective(limit, n); }
  }

  /** The limit of attesting indices is such a limit. */
  lemma IndicesDepth()
    ensures CoverDepth(2048) == 8 && Log2Ceil(NumberChunks(2048)) == 9 && Pow2(8) == 256
  {
    SmallPowers();
    assert Pow2(9) == 2 * Pow2(8);
    LeastCoverUnique(512, 9, Log2Ceil(512));
  }
}
