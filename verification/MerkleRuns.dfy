/** When the hashers of lib/merkleization.h agree with the reference, call by call and over
    whole runs from InitZeroHashes. */
module MerkleRuns {
  import opened Words
  import opened MerkleTree
  import opened Hex
  import opened Merkleization
  import opened ListHasher
  import opened Bitlist
  import opened BitlistProperties

  // ----- one call

  /** Checkable before the call: row 0 is still zero or never read, and leaf 0 is not lost. */
  predicate Faithful(P: Chunk, leaves: seq<Chunk>, d: nat)
    requires |leaves| <= 256
  {
    var n := |leaves|;
    if n == 256 then leaves[0] == ZERO else P == ZERO || (Full(n) && (n > 1 || d == 0))
  }

  lemma FullTwo()
    ensures !Full(0) && Full(1) && Full(256)
  {
    SmallPowers();
    Log2CeilBound(256);
  }

  lemma PaddedDiffer(xs: seq<Chunk>, ys: seq<Chunk>, d: nat, k: nat)
    requires |xs| <= Pow2(d) && |ys| <= Pow2(d) && k < Pow2(d) && Leaf(xs, k) != Leaf(ys, k)
    ensures ZeroPadded(xs, d) != ZeroPadded(ys, d)
  {
    assert ZeroPadded(xs, d)[k] == Leaf(xs, k) && ZeroPadded(ys, d)[k] == Leaf(ys, k);
  }

  lemma PaddedSame(xs: seq<Chunk>, ys: seq<Chunk>, d: nat)
    requires |xs| <= Pow2(d) && |ys| <= Pow2(d) && forall k: nat :: Leaf(xs, k) == Leaf(ys, k)
    ensures ZeroPadded(xs, d) == ZeroPadded(ys, d)
  {
    var a, b := ZeroPadded(xs, d), ZeroPadded(ys, d);
    forall k | 0 <= k < |a| ensures a[k] == b[k] {
      assert a[k] == Leaf(xs, k) && b[k] == Leaf(ys, k);
    }
  }

  lemma EffectiveLeaves(P: Chunk, leaves: seq<Chunk>, d: nat)
    requires |leaves| <= Pow2(d) && |leaves| <= 256
    ensures Faithful(P, leaves, d) ==> forall k: nat :: Leaf(Effective(leaves, P, d), k) == Leaf(leaves, k)
    ensures !Faithful(P, leaves, d) ==>
              var k := if |leaves| == 256 then 0 else |leaves|;
              k < |Effective(leaves, P, d)| && Leaf(Effective(leaves, P, d), k) != Leaf(leaves, k)
  {
  }

  lemma SamePadding(P: Chunk, leaves: seq<Chunk>, d: nat)
    requires |leaves| <= Pow2(d) && |leaves| <= 256
    ensures |Effective(leaves, P, d)| <= Pow2(d)
    ensures ZeroPadded(Effective(leaves, P, d), d) == ZeroPadded(leaves, d) <==> Faithful(P, leaves, d)
  {
    EffectiveFits(leaves, P, d);
    EffectiveLeaves(P, leaves, d);
    if Faithful(P, leaves, d) {
      PaddedSame(Effective(leaves, P, d), leaves, d);
    } else {
      PaddedDiffer(Effective(leaves, P, d), leaves, d, if |leaves| == 256 then 0 else |leaves|);
    }
  }

  /** The strings hashed for the streamed root. */
  ghost function TreeStrings(H: HashFn, P: Chunk, leaves: seq<Chunk>, d: nat): set<seq<Byte>>
    requires |leaves| <= Pow2(d) && |leaves| <= 256
  {
    EffectiveFits(leaves, P, d);
    PaddedHashed(H, Effective(leaves, P, d), d)
  }

  /** The streamed root is the reference root exactly when the call is faithful, unless strings
      hashed for the two collide. */
  lemma TreeCorrectIff(H: HashFn, P: Chunk, leaves: seq<Chunk>, d: nat)
    requires |leaves| <= Pow2(d) && |leaves| <= 256
    ensures Faithful(P, leaves, d) ==> TreeResult(H, P, leaves, d) == PaddedRoot(H, leaves, d)
    ensures CollisionFree(H, TreeStrings(H, P, leaves, d) + PaddedHashed(H, leaves, d)) ==>
              (TreeResult(H, P, leaves, d) == PaddedRoot(H, leaves, d) ==> Faithful(P, leaves, d))
  {
    SamePadding(P, leaves, d);
    if CollisionFree(H, TreeStrings(H, P, leaves, d) + PaddedHashed(H, leaves, d)) {
      PaddedRootInjective(H, Effective(leaves, P, d), leaves, d);
    }
  }

  lemma IntactTree(H: HashFn, leaves: seq<Chunk>, d: nat)
    requires |leaves| <= Pow2(d) && |leaves| < 256
    ensures TreeResult(H, ZERO, leaves, d) == PaddedRoot(H, leaves, d)
  {
    TreeCorrectIff(H, ZERO, leaves, d);
  }

  /** The strings hashed for a tree and for its root with a length behind it. */
  ghost function MixedStrings(H: HashFn, leaves: seq<Chunk>, d: nat, length: nat): set<seq<Byte>>
    requires |leaves| <= Pow2(d)
  {
    PaddedHashed(H, leaves, d) + {Join(PaddedRoot(H, leaves, d), U64Chunk(length))}
  }

  /** Two non-empty lists under one limit and constant hash alike from an intact table exactly
      when their zero-padded vectors agree: their lengths are not mixed in. */
  lemma ListsCollideIff(H: HashFn, a: seq<Chunk>, b: seq<Chunk>, d: nat, mix: nat)
    requires 1 <= |a| <= Pow2(d) && 1 <= |b| <= Pow2(d) && |a| < 256 && |b| < 256
    requires CollisionFree(H, MixedStrings(H, a, d, mix) + MixedStrings(H, b, d, mix))
    ensures ListResult(H, ZERO, a, d, mix) == ListResult(H, ZERO, b, d, mix) <==> ZeroPadded(a, d) == ZeroPadded(b, d)
  {
    IntactTree(H, a, d);
    IntactTree(H, b, d);
    PaddedRootInjective(H, a, b, d);
    var x, y := PaddedRoot(H, a, d), PaddedRoot(H, b, d);
    if HashPair(H, x, U64Chunk(mix)) == HashPair(H, y, U64Chunk(mix)) {
      PairBinds(H, MixedStrings(H, a, d, mix) + MixedStrings(H, b, d, mix), x, U64Chunk(mix), y, U64Chunk(mix));
    }
  }

  lemma {:induction false} ZeroTree(H: HashFn, d: nat)
    ensures PaddedRoot(H, [], d) == ZeroHash(H, d)
  {
    NodeBeyond(H, [], d, 0);
    NodeIsPaddedRoot(H, [], d);
  }

  lemma ZeroLength()
    ensures U64Chunk(0) == ZERO
  {
    LeZero(8);
  }

  lemma {:induction false} LeZero(n: nat)
    ensures LeBytes(0, n) == ZeroBytes(n)
  {
    if n > 0 { LeZero(n - 1); }
  }

  /** What a list hasher mixes in: a constant, but 0 for the empty list. */
  function Mixed(leaves: seq<Chunk>, mix: nat): nat { if leaves == [] then 0 else mix }

  /** From an intact table a list hasher hashes the right tree for the depth it works with. */
  lemma IntactList(H: HashFn, leaves: seq<Chunk>, d: nat, mix: nat)
    requires |leaves| <= Pow2(d) && |leaves| < 256
    ensures ListResult(H, ZERO, leaves, d, mix) == HashPair(H, PaddedRoot(H, leaves, d), U64Chunk(Mixed(leaves, mix)))
  {
    if leaves == [] {
      ZeroTree(H, d);
      ZeroLength();
    } else {
      IntactTree(H, leaves, d);
    }
  }

  lemma SmallPow256(n: nat)
    requires n < 256
    ensures n < Pow256(8)
  {
    SmallLength(n);
  }

  /** From an intact table htrBitlist is the SSZ root of the bits that were serialized. */
  lemma BitlistIsSsz(H: HashFn, bits: seq<bool>, bitlimit: nat)
    requires |bits| <= bitlimit <= 65280
    ensures ChunkCount(|bits|) <= Pow2(CoverDepth(ChunkCount(bitlimit))) <= 256
    ensures BitlistLen(Serialize(bits)) == |bits|
    ensures CoverDepth(ChunkCount(bitlimit)) == Log2Ceil(ChunkCount(bitlimit))
    ensures BitlistResult(H, ZERO, Serialize(bits), CoverDepth(ChunkCount(bitlimit)))
            == SszBitlistRoot(H, bits, Log2Ceil(ChunkCount(bitlimit)))
  {
    SerializeRoundTrip(bits);
    SerializedLength(bits);
    var d := Log2Ceil(ChunkCount(bitlimit));
    CoverDepthCorrect(ChunkCount(bitlimit));
    TreeCorrectIff(H, ZERO, PackBits(bits), d);
  }

  // ----- runs

  /** A call; `depth` is the depth the code computes for the limit. */
  datatype Call =
    | ListCall(leaves: seq<Chunk>, max: nat, mix: nat, depth: nat)
    | BitsCall(bytes: seq<Byte>, bitlimit: nat, depth: nat)

  predicate Genuine(c: Call) {
    c.depth == CoverDepth(if c.ListCall? then c.max else ChunkCount(c.bitlimit))
  }

  function Leaves(c: Call): seq<Chunk> {
    match c case ListCall(leaves, _, _, _) => leaves case BitsCall(bytes, _, _) => Chunks(bytes)
  }

  /** The elements fit under the depth of the limit. */
  predicate Admissible(c: Call) {
    |Leaves(c)| <= Pow2(c.depth) && |Leaves(c)| <= 256 && (c.ListCall? ==> c.mix < Pow256(8))
  }

  function Result(H: HashFn, P: Chunk, c: Call): Chunk
    requires Admissible(c)
  {
    match c
    case ListCall(leaves, _, mix, depth) => ListResult(H, P, leaves, depth, mix)
    case BitsCall(bytes, _, depth) => BitlistResult(H, P, bytes, depth)
  }

  /** The number mixed in. */
  function Length(c: Call): nat {
    match c case ListCall(leaves, _, mix, _) => Mixed(leaves, mix) case BitsCall(bytes, _, _) => BitlistLen(bytes)
  }

  /** The result with the tree replaced by the reference. */
  function Reference(H: HashFn, c: Call): Chunk
    requires Admissible(c)
  {
    HashPair(H, PaddedRoot(H, Leaves(c), c.depth), U64Chunk(Length(c)))
  }

  predicate AllAdmissible(calls: seq<Call>) { forall k :: 0 <= k < |calls| ==> Admissible(calls[k]) }

  /** Row 0 of the table after the first k calls of a run that starts from InitZeroHashes. */
  function PadAfter(H: HashFn, calls: seq<Call>, k: nat): Chunk
    requires AllAdmissible(calls) && k <= |calls|
  {
    if k == 0 then ZERO else NextPad(H, PadAfter(H, calls, k - 1), Leaves(calls[k - 1]))
  }

  method Execute(m: Merkleizer, c: Call) returns (r: Chunk)
    requires m.Valid() && Admissible(c) && Genuine(c)
    modifies m.zerohashes
    ensures m.Valid() && m.zerohashes[0] == NextPad(m.H, old(m.zerohashes[0]), Leaves(c))
    ensures r == Result(m.H, old(m.zerohashes[0]), c)
  {
    match c {
      case ListCall(leaves, max, mix, depth) =>
        ghost var zh := m.zerohashes[..];
        FitsRows(|leaves|, depth);
        r := HtrList(m, leaves, max, mix);
        FitsIsList(m.H, zh, zh[0], leaves, depth, mix);
      case BitsCall(bytes, bitlimit, _) => r := HtrBitlist(m, bytes, bitlimit);
    }
  }

  /** What call k of a run returns, given the table its predecessors left. */
  function ResultAt(H: HashFn, calls: seq<Call>, k: nat): Chunk
    requires AllAdmissible(calls) && k < |calls|
  {
    Result(H, PadAfter(H, calls, k), calls[k])
  }

  /** results are what the first |results| calls return. */
  ghost predicate Returned(H: HashFn, calls: seq<Call>, results: seq<Chunk>)
    requires AllAdmissible(calls)
  {
    results == [] ||
    (|results| <= |calls| && Returned(H, calls, results[..|results| - 1])
     && results[|results| - 1] == ResultAt(H, calls, |results| - 1))
  }

  /** The calls of a run, executed on the one global table. */
  method Run(m: Merkleizer, calls: seq<Call>) returns (results: seq<Chunk>)
    requires m.zerohashes.Length == 64 && AllAdmissible(calls) && forall k :: 0 <= k < |calls| ==> Genuine(calls[k])
    modifies m.zerohashes
    ensures m.Valid() && m.zerohashes[0] == PadAfter(m.H, calls, |calls|)
    ensures |results| == |calls| && Returned(m.H, calls, results)
  {
    m.InitZeroHashes(63);
    results := [];
    for i := 0 to |calls|
      invariant m.Valid() && m.zerohashes[0] == PadAfter(m.H, calls, i)
      invariant |results| == i && Returned(m.H, calls, results)
    {
      var r := Execute(m, calls[i]);
      ghost var before := results;
      results := results + [r];
      assert results[..|results| - 1] == before;
    }
  }

  /** Leaf count zero or a power of two. */
  predicate Clean(c: Call) { Leaves(c) == [] || Full(|Leaves(c)|) }

  lemma CleanStep(H: HashFn, calls: seq<Call>, k: nat)
    requires AllAdmissible(calls) && 0 < k <= |calls| && Clean(calls[k - 1])
    ensures PadAfter(H, calls, k) == PadAfter(H, calls, k - 1)
  {
  }

  /** Clean calls leave the whole table intact. */
  lemma {:induction false} CleanRunKeepsTable(H: HashFn, calls: seq<Call>, k: nat)
    requires AllAdmissible(calls) && k <= |calls| && forall i :: 0 <= i < k ==> Clean(calls[i])
    ensures PadAfter(H, calls, k) == ZERO
  {
    if k > 0 {
      CleanRunKeepsTable(H, calls, k - 1);
      CleanStep(H, calls, k);
    }
  }

  /** Up to and including the first call that is not clean, every call of fewer than 256 leaves
      returns the reference; and that first call leaves its own padded root in row 0. */
  lemma CorrectThroughFirstDirty(H: HashFn, calls: seq<Call>, k: nat)
    requires AllAdmissible(calls) && k < |calls|
    requires forall i :: 0 <= i < k ==> Clean(calls[i])
    ensures |Leaves(calls[k])| < 256 ==> ResultAt(H, calls, k) == Reference(H, calls[k])
    ensures PadAfter(H, calls, k + 1) ==
            if Clean(calls[k]) then ZERO else PaddedRoot(H, Leaves(calls[k]), Log2Ceil(|Leaves(calls[k])|))
  {
    var c := calls[k];
    var leaves := Leaves(c);
    CleanRunKeepsTable(H, calls, k);
    if |leaves| < 256 { TreeCorrectIff(H, ZERO, leaves, c.depth); }
    ZeroTree(H, c.depth);
    ZeroLength();
    FullTwo();
    TreeCorrectIff(H, ZERO, leaves, Log2Ceil(|leaves|));
  }

  /** The strings hashed for the new content of row 0, if the call writes it. */
  ghost function PadStrings(H: HashFn, P: Chunk, leaves: seq<Chunk>): set<seq<Byte>>
    requires |leaves| <= 256
  {
    if leaves == [] || Full(|leaves|) then {} else TreeStrings(H, P, leaves, Log2Ceil(|leaves|))
  }

  /** Writing row 0 and leaving it zero takes a string that hashes to zero, among those hashed. */
  lemma SpoiledRow(H: HashFn, P: Chunk, leaves: seq<Chunk>)
    requires 0 < |leaves| <= 256 && !Full(|leaves|) && NextPad(H, P, leaves) == ZERO
    ensures !ZeroFree(H, PadStrings(H, P, leaves))
  {
    var d := Log2Ceil(|leaves|);
    assert d > 0;
    EffectiveFits(leaves, P, d);
    RootIsDigest(H, Effective(leaves, P, d), d);
  }

  lemma RootIsDigest(H: HashFn, xs: seq<Chunk>, d: nat)
    requires |xs| <= Pow2(d) && d > 0
    ensures !Avoids(H, PaddedHashed(H, xs, d), PaddedRoot(H, xs, d))
  {
    var padded, half := ZeroPadded(xs, d), Pow2(d - 1);
    var x := Join(MerkleRoot(H, padded[..half], d - 1), MerkleRoot(H, padded[half..], d - 1));
    assert x in Hashed(H, padded, d);
  }

  ghost predicate AllClean(calls: seq<Call>, k: nat)
    requires k <= |calls|
  {
    forall i :: 0 <= i < k ==> Clean(calls[i])
  }

  lemma RowAfterCall(H: HashFn, P: Chunk, c: Call)
    requires Admissible(c) && ZeroFree(H, PadStrings(H, P, Leaves(c)))
    ensures NextPad(H, P, Leaves(c)) == ZERO <==> P == ZERO && Clean(c)
  {
    if !Clean(c) && NextPad(H, P, Leaves(c)) == ZERO { SpoiledRow(H, P, Leaves(c)); }
  }

  /** No string hashed to zero when call i wrote row 0. */
  ghost predicate RowFree(H: HashFn, calls: seq<Call>, i: nat)
    requires AllAdmissible(calls) && i < |calls|
  {
    ZeroFree(H, PadStrings(H, PadAfter(H, calls, i), Leaves(calls[i])))
  }

  ghost predicate RowsFree(H: HashFn, calls: seq<Call>, k: nat)
    requires AllAdmissible(calls) && k <= |calls|
  {
    forall i :: 0 <= i < k ==> RowFree(H, calls, i)
  }

  lemma RowAfterStep(H: HashFn, calls: seq<Call>, k: nat)
    requires AllAdmissible(calls) && 0 < k <= |calls| && RowFree(H, calls, k - 1)
    ensures PadAfter(H, calls, k) == ZERO <==> PadAfter(H, calls, k - 1) == ZERO && Clean(calls[k - 1])
  {
    RowAfterCall(H, PadAfter(H, calls, k - 1), calls[k - 1]);
  }

  /** A property kept exactly by the good steps holds exactly as long as all steps are good. */
  lemma {:induction false} KeptIff(kept: seq<bool>, good: seq<bool>, k: nat)
    requires |kept| == |good| + 1 && kept[0] && k <= |good|
    requires forall i :: 0 <= i < k ==> kept[i + 1] == (kept[i] && good[i])
    ensures kept[k] <==> forall i :: 0 <= i < k ==> good[i]
  {
    if k > 0 { KeptIff(kept, good, k - 1); }
  }

  ghost function IntactAt(H: HashFn, calls: seq<Call>): (r: seq<bool>)
    requires AllAdmissible(calls)
    ensures |r| == |calls| + 1 && forall i :: 0 <= i <= |calls| ==> r[i] == (PadAfter(H, calls, i) == ZERO)
  {
    seq(|calls| + 1, i requires 0 <= i <= |calls| => PadAfter(H, calls, i) == ZERO)
  }

  ghost function CleanAt(calls: seq<Call>): (r: seq<bool>)
    ensures |r| == |calls| && forall i :: 0 <= i < |calls| ==> r[i] == Clean(calls[i])
  {
    seq(|calls|, i requires 0 <= i < |calls| => Clean(calls[i]))
  }

  lemma IntactSteps(H: HashFn, calls: seq<Call>, kept: seq<bool>, good: seq<bool>, k: nat)
    requires AllAdmissible(calls) && k <= |calls| && RowsFree(H, calls, k) && kept == IntactAt(H, calls) && good == CleanAt(calls)
    ensures kept[0] && forall i :: 0 <= i < k ==> kept[i + 1] == (kept[i] && good[i])
  {
    assert PadAfter(H, calls, 0) == ZERO;
    forall i | 0 <= i < k ensures kept[i + 1] == (kept[i] && good[i]) {
      RowAfterStep(H, calls, i + 1);
      IntactStep(H, calls, kept, good, i);
    }
  }

  lemma IntactStep(H: HashFn, calls: seq<Call>, kept: seq<bool>, good: seq<bool>, i: nat)
    requires AllAdmissible(calls) && i < |calls| && |kept| == |calls| + 1 && |good| == |calls|
    requires kept[i + 1] == (PadAfter(H, calls, i + 1) == ZERO) && kept[i] == (PadAfter(H, calls, i) == ZERO) && good[i] == Clean(calls[i])
    requires PadAfter(H, calls, i + 1) == ZERO <==> PadAfter(H, calls, i) == ZERO && Clean(calls[i])
    ensures kept[i + 1] == (kept[i] && good[i])
  {
  }

  lemma CleanSteps(calls: seq<Call>, k: nat)
    requires k <= |calls|
    ensures AllClean(calls, k) <==> forall i :: 0 <= i < k ==> CleanAt(calls)[i]
  {
    var good := CleanAt(calls);
    forall i | 0 <= i < k ensures good[i] == Clean(calls[i]) {}
  }

  /** The table is intact exactly while all calls were clean: no later call repairs it, unless
      a string hashed for row 0 hashes to zero. */
  lemma IntactIffAllClean(H: HashFn, calls: seq<Call>, k: nat)
    requires AllAdmissible(calls) && k <= |calls| && RowsFree(H, calls, k)
    ensures PadAfter(H, calls, k) == ZERO <==> AllClean(calls, k)
  {
    var kept, good := IntactAt(H, calls), CleanAt(calls);
    IntactSteps(H, calls, kept, good, k);
    KeptIff(kept, good, k);
    CleanSteps(calls, k);
  }

  /** The strings hashed by the call. */
  ghost function ResultStrings(H: HashFn, P: Chunk, c: Call): set<seq<Byte>>
    requires Admissible(c)
  {
    if c.ListCall? && c.leaves == [] then {Join(if c.depth == 0 then P else ZeroHash(H, c.depth), P)}
    else TreeStrings(H, P, Leaves(c), c.depth) + {Join(TreeResult(H, P, Leaves(c), c.depth), U64Chunk(Length(c)))}
  }

  /** The strings hashed for its reference. */
  ghost function ReferenceStrings(H: HashFn, c: Call): set<seq<Byte>>
    requires Admissible(c)
  {
    MixedStrings(H, Leaves(c), c.depth, Length(c))
  }

  lemma CallCorrectIff(H: HashFn, P: Chunk, c: Call)
    requires Admissible(c) && CollisionFree(H, ResultStrings(H, P, c) + ReferenceStrings(H, c))
    ensures Result(H, P, c) == Reference(H, c) <==> Faithful(P, Leaves(c), c.depth)
  {
    var leaves, d, S := Leaves(c), c.depth, ResultStrings(H, P, c) + ReferenceStrings(H, c);
    var root, reference, length := TreeResult(H, P, leaves, d), PaddedRoot(H, leaves, d), U64Chunk(Length(c));
    FullTwo();
    if c.ListCall? && leaves == [] {
      ZeroTree(H, d);
      ZeroLength();
      if Result(H, P, c) == Reference(H, c) {
        PairBinds(H, S, if d == 0 then P else ZeroHash(H, d), P, reference, ZERO);
      }
    } else {
      TreeCorrectIff(H, P, leaves, d);
      FreeSubset(H, S, TreeStrings(H, P, leaves, d) + PaddedHashed(H, leaves, d));
      assert Result(H, P, c) == HashPair(H, root, length) && Reference(H, c) == HashPair(H, reference, length);
      if Result(H, P, c) == Reference(H, c) { PairBinds(H, S, root, length, reference, length); }
    }
  }

  lemma FreeSubset(H: HashFn, S: set<seq<Byte>>, T: set<seq<Byte>>)
    requires CollisionFree(H, S) && T <= S
    ensures CollisionFree(H, T)
  {
  }

  /** Call k of any run returns the reference if and only if all earlier calls were clean or it
      never reads row 0; with 256 leaves, if and only if the lost leaf is zero. */
  lemma RunCorrectIff(H: HashFn, calls: seq<Call>, k: nat)
    requires AllAdmissible(calls) && k < |calls| && RowsFree(H, calls, k)
    requires CollisionFree(H, ResultStrings(H, PadAfter(H, calls, k), calls[k]) + ReferenceStrings(H, calls[k]))
    ensures ResultAt(H, calls, k) == Reference(H, calls[k]) <==>
            var leaves := Leaves(calls[k]);
            if |leaves| == 256 then leaves[0] == ZERO
            else AllClean(calls, k) || (Full(|leaves|) && (|leaves| > 1 || calls[k].depth == 0))
  {
    IntactIffAllClean(H, calls, k);
    CallCorrectIff(H, PadAfter(H, calls, k), calls[k]);
  }

  // ----- inputs on which the code and the standard part

  lemma FirstRowFree(H: HashFn, calls: seq<Call>)
    requires AllAdmissible(calls) && calls != [] && ZeroFree(H, PadStrings(H, ZERO, Leaves(calls[0])))
    ensures RowsFree(H, calls, 1)
  {
    assert PadAfter(H, calls, 0) == ZERO;
  }

  /** The same three-element list hashed twice: the second result is not the reference. */
  lemma SecondCallDiffers(H: HashFn, leaves: seq<Chunk>, mix: nat)
    requires |leaves| == 3 && mix < Pow256(8) && ZeroFree(H, PadStrings(H, ZERO, leaves))
    requires AllAdmissible([ListCall(leaves, 4, mix, 2), ListCall(leaves, 4, mix, 2)])
    requires var c := ListCall(leaves, 4, mix, 2);
             CollisionFree(H, ResultStrings(H, PadAfter(H, [c, c], 1), c) + ReferenceStrings(H, c))
    ensures var c := ListCall(leaves, 4, mix, 2);
            Genuine(c) && ResultAt(H, [c, c], 0) == Reference(H, c) && ResultAt(H, [c, c], 1) != Reference(H, c)
  {
    SmallPowers();
    var c := ListCall(leaves, 4, mix, 2);
    assert Log2Ceil(3) == 2 by { LeastCoverUnique(3, 2, Log2Ceil(3)); }
    CoverDepthCorrect(4);
    LeastCoverUnique(4, 2, Log2Ceil(4));
    var calls := [c, c];
    CorrectThroughFirstDirty(H, calls, 0);
    FirstRowFree(H, calls);
    RunCorrectIff(H, calls, 1);
    assert !Clean(calls[0]) && !AllClean(calls, 1);
  }

  /** A list and the same list with a zero element behind it hash alike. */
  lemma LengthIgnored(H: HashFn, leaves: seq<Chunk>, d: nat, mix: nat)
    requires 1 <= |leaves| < Pow2(d) && |leaves| < 255
    ensures ListResult(H, ZERO, leaves, d, mix) == ListResult(H, ZERO, leaves + [ZERO], d, mix)
  {
    var longer := leaves + [ZERO];
    IntactList(H, leaves, d, mix);
    IntactList(H, longer, d, mix);
    ZeroBehind(leaves, d);
  }

  lemma ZeroBehind(leaves: seq<Chunk>, d: nat)
    requires |leaves| < Pow2(d)
    ensures ZeroPadded(leaves, d) == ZeroPadded(leaves + [ZERO], d)
  {
    PaddedSame(leaves, leaves + [ZERO], d);
  }

  /** Lists of 256 leaves that differ only in leaf 0 hash alike. */
  lemma FirstLeafLost(H: HashFn, P: Chunk, leaves: seq<Chunk>, x: Chunk, d: nat, mix: nat)
    requires |leaves| == 256 <= Pow2(d)
    ensures ListResult(H, P, leaves[0 := x], d, mix) == ListResult(H, P, leaves, d, mix)
  {
    assert leaves[0 := x][0 := ZERO] == leaves[0 := ZERO];
  }
}
