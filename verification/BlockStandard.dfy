/** When htrBeaconBlock computes hash_tree_root of a phase 0 block as the SSZ specification
    defines it. */
module BlockStandard {
  import opened Words
  import opened MerkleTree
  import opened Hex
  import opened Merkleization
  import opened MerkleRuns
  import opened SszLists
  import opened Containers
  import opened Blocks

  // ----- the SSZ reference

  /** refs[i] is the SSZ root of attestation i, which is within the limit of its type. */
  ghost predicate RefAt(H: HashFn, atts: seq<Attestation>, refs: seq<Chunk>, i: nat)
    requires i < |atts| && i < |refs|
  {
    BitsFit(atts[i]) && refs[i] == SszAttestation(H, atts[i])
  }

  ghost predicate RefAll(H: HashFn, atts: seq<Attestation>, refs: seq<Chunk>) {
    |refs| == |atts| && forall i :: 0 <= i < |atts| ==> RefAt(H, atts, refs, i)
  }

  function SszLeft(H: HashFn, b: BlockBody): (r: seq<Chunk>)
    ensures |r| == 4
  {
    [SszSignature(H, b.randaoReveal), SszEth1(H, b.eth1Data), b.graffiti, SszListRoot(H, [], 16)]
  }

  function SszRight(H: HashFn, list: Chunk): (r: seq<Chunk>)
    ensures |r| == 4
  {
    [SszListRoot(H, [], 2), list, SszListRoot(H, [], 16), SszListRoot(H, [], 16)]
  }

  /** Root of a body whose attestations have the roots refs. */
  function SszBody(H: HashFn, b: BlockBody, refs: seq<Chunk>, max: nat): Chunk
    requires Within(|refs|, max)
  {
    ContainerRoot(H, SszLeft(H, b) + SszRight(H, SszListRoot(H, refs, max)))
  }

  /** The container of slot, proposer_index, parent_root, state_root and body. */
  function SszFive(H: HashFn, b: Block, body: Chunk): Chunk {
    ContainerRoot(H, [U64Chunk(b.slot), U64Chunk(b.proposer), b.parentRoot, b.stateRoot, body])
  }

  function SszBlock(H: HashFn, b: Block, refs: seq<Chunk>, max: nat): Chunk
    requires Within(|refs|, max)
  {
    SszFive(H, b, SszBody(H, b.body, refs, max))
  }

  // ----- the list of attestations

  predicate SoundAt(atts: seq<Attestation>, i: nat)
    requires i < |atts|
  {
    Sound(atts[i])
  }

  ghost predicate AllSound(atts: seq<Attestation>) { forall i :: 0 <= i < |atts| ==> SoundAt(atts, i) }

  /** Checkable before the call: no attestations, or two, as are mixed in, both sound. */
  ghost predicate SoundList(atts: seq<Attestation>) {
    atts == [] || (|atts| == 2 && AllSound(atts))
  }

  /** Strings hashed for attestation i, by the code and by the standard, do not collide, and none hashes to
      zero in row 0. */
  ghost predicate FreeAt(H: HashFn, atts: seq<Attestation>, i: nat)
    requires i < |atts|
  {
    BitsFit(atts[i]) && AttFree(H, atts[i])
  }

  ghost predicate AllFree(H: HashFn, atts: seq<Attestation>) { forall i :: 0 <= i < |atts| ==> FreeAt(H, atts, i) }

  lemma SoundNext(H: HashFn, atts: seq<Attestation>, rows: seq<Chunk>, roots: seq<Chunk>, refs: seq<Chunk>, i: nat)
    requires i < |roots| == |refs| == |atts| && i + 1 < |rows| && SoundAt(atts, i)
    requires Hashes(H, atts, rows, roots, i) && RefAt(H, atts, refs, i) && rows[i] == ZERO
    ensures roots[i] == refs[i] && rows[i + 1] == ZERO
  {
    AttIsSszIff(H, atts[i]);
  }

  lemma EqualNext(H: HashFn, atts: seq<Attestation>, rows: seq<Chunk>, roots: seq<Chunk>, refs: seq<Chunk>, i: nat)
    requires i < |roots| == |refs| == |atts| && i + 1 < |rows| && roots[i] == refs[i]
    requires Hashes(H, atts, rows, roots, i) && RefAt(H, atts, refs, i) && rows[i] == ZERO
    requires FreeAt(H, atts, i)
    ensures SoundAt(atts, i) && rows[i + 1] == ZERO
  {
    AttIsSszIff(H, atts[i]);
  }

  lemma {:induction false} SoundThrough(H: HashFn, atts: seq<Attestation>, rows: seq<Chunk>, roots: seq<Chunk>, refs: seq<Chunk>, k: nat)
    requires HashesAll(H, ZERO, atts, rows, roots) && RefAll(H, atts, refs) && AllSound(atts) && k <= |atts|
    ensures rows[k] == ZERO
  {
    if k > 0 {
      SoundThrough(H, atts, rows, roots, refs, k - 1);
      SoundNext(H, atts, rows, roots, refs, k - 1);
    }
  }

  /** Sound attestations leave row 0 alone and are hashed as the standard says. */
  lemma SoundAreSsz(H: HashFn, atts: seq<Attestation>, rows: seq<Chunk>, roots: seq<Chunk>, refs: seq<Chunk>)
    requires HashesAll(H, ZERO, atts, rows, roots) && RefAll(H, atts, refs) && AllSound(atts)
    ensures roots == refs && rows[|atts|] == ZERO
  {
    SoundThrough(H, atts, rows, roots, refs, |atts|);
    forall i | 0 <= i < |roots| ensures roots[i] == refs[i] {
      SoundThrough(H, atts, rows, roots, refs, i);
      SoundNext(H, atts, rows, roots, refs, i);
    }
  }

  lemma {:induction false} EqualThrough(H: HashFn, atts: seq<Attestation>, rows: seq<Chunk>, roots: seq<Chunk>, refs: seq<Chunk>, k: nat)
    requires HashesAll(H, ZERO, atts, rows, roots) && RefAll(H, atts, refs) && AllFree(H, atts)
    requires roots == refs && k <= |atts|
    ensures rows[k] == ZERO
  {
    if k > 0 {
      EqualThrough(H, atts, rows, roots, refs, k - 1);
      EqualNext(H, atts, rows, roots, refs, k - 1);
    }
  }

  /** Only sound attestations are, all of them. */
  lemma SszAreSound(H: HashFn, atts: seq<Attestation>, rows: seq<Chunk>, roots: seq<Chunk>, refs: seq<Chunk>)
    requires HashesAll(H, ZERO, atts, rows, roots) && RefAll(H, atts, refs) && AllFree(H, atts)
    requires roots == refs
    ensures AllSound(atts)
  {
    forall i | 0 <= i < |atts| ensures SoundAt(atts, i) {
      EqualThrough(H, atts, rows, roots, refs, i);
      EqualNext(H, atts, rows, roots, refs, i);
    }
  }

  /** The strings hashed for the list, by the code and by the standard. */
  ghost function ListStrings(H: HashFn, roots: seq<Chunk>, row: Chunk, refs: seq<Chunk>, max: nat): set<seq<Byte>>
    requires |roots| == |refs| && Within(|refs|, max)
  {
    WithinDepth(|refs|, max);
    TreeStrings(H, row, roots, Log2Ceil(max)) + {Join(TreeResult(H, row, roots, Log2Ceil(max)), U64Chunk(ATTESTATIONS_MIX))}
    + MixedStrings(H, refs, Log2Ceil(max), |refs|)
  }

  lemma MixIsLength(H: HashFn, roots: seq<Chunk>, max: nat)
    requires Within(|roots|, max) && (roots == [] || |roots| == ATTESTATIONS_MIX)
    ensures AttsResult(H, roots, ZERO, max) == SszListRoot(H, roots, max) && RowAfterList(H, roots, ZERO) == ZERO
  {
    WithinDepth(|roots|, max);
    IntactList(H, roots, Log2Ceil(max), ATTESTATIONS_MIX);
    SmallDepths();
  }

  lemma LengthIsMix(H: HashFn, roots: seq<Chunk>, row: Chunk, refs: seq<Chunk>, max: nat)
    requires |roots| == |refs| > 0 && Within(|refs|, max) && CollisionFree(H, ListStrings(H, roots, row, refs, max))
    requires AttsResult(H, roots, row, max) == SszListRoot(H, refs, max)
    ensures |refs| == 2 && roots == refs
  {
    var d, S := Log2Ceil(max), ListStrings(H, roots, row, refs, max);
    WithinDepth(|refs|, max);
    PairBinds(H, S, TreeResult(H, row, roots, d), U64Chunk(ATTESTATIONS_MIX), PaddedRoot(H, refs, d), U64Chunk(|refs|));
    SmallPow256(|refs|);
    SmallPow256(ATTESTATIONS_MIX);
    U64ChunkInjective(ATTESTATIONS_MIX, |refs|);
    SmallDepths();
    assert Effective(roots, row, d) == roots;
    FreeSubset(H, S, PaddedHashed(H, roots, d) + PaddedHashed(H, refs, d));
    PaddedRootInjective(H, roots, refs, d);
    assert roots == ZeroPadded(roots, d)[..|roots|] && refs == ZeroPadded(refs, d)[..|refs|];
  }

  // ----- the body

  lemma EmptyListIsSsz(H: HashFn, limit: nat, d: nat)
    requires d == Log2Ceil(limit)
    ensures EmptyList(H, ZERO, d) == SszListRoot(H, [], limit)
  {
    IntactList(H, [], d, 0);
  }

  lemma EmptyListsAreSsz(H: HashFn)
    ensures EmptyList(H, ZERO, 4) == SszListRoot(H, [], 16) && EmptyList(H, ZERO, 1) == SszListRoot(H, [], 2)
  {
    LimitDepths();
    CoverDepthCorrect(16);
    CoverDepthCorrect(2);
    EmptyListIsSsz(H, 16, 4);
    EmptyListIsSsz(H, 2, 1);
  }

  lemma LeftIsSsz(H: HashFn, b: BlockBody)
    ensures LeftFields(H, ZERO, b) == SszLeft(H, b)
  {
    SignatureIsSsz(H, b.randaoReveal);
    FieldsRootIsContainerRoot(H, [b.eth1Data.depositRoot, U64Chunk(b.eth1Data.depositCount), b.eth1Data.blockHash]);
    EmptyListsAreSsz(H);
  }

  lemma BodyIsSsz(H: HashFn, b: BlockBody, roots: seq<Chunk>, max: nat)
    requires Within(|roots|, max) && (roots == [] || |roots| == ATTESTATIONS_MIX)
    ensures BodyRoot(H, ZERO, b, roots, ZERO, max) == SszBody(H, b, roots, max)
  {
    MixIsLength(H, roots, max);
    LeftIsSsz(H, b);
    EmptyListsAreSsz(H);
    FieldsRootIsContainerRoot(H, SszLeft(H, b) + SszRight(H, SszListRoot(H, roots, max)));
  }

  /** The strings hashed for a tree of eight leaves. */
  ghost function EightStrings(H: HashFn, x: seq<Chunk>, y: seq<Chunk>): set<seq<Byte>>
    requires |x| == |y| == 4
  {
    FourStrings(H, x[0], x[1], x[2], x[3]) + FourStrings(H, y[0], y[1], y[2], y[3])
    + {Join(FourRoot(H, x[0], x[1], x[2], x[3]), FourRoot(H, y[0], y[1], y[2], y[3]))}
  }

  lemma FourBindSeq(H: HashFn, S: set<seq<Byte>>, x: seq<Chunk>, v: seq<Chunk>)
    requires |x| == |v| == 4 && CollisionFree(H, S)
    requires FourStrings(H, x[0], x[1], x[2], x[3]) <= S && FourStrings(H, v[0], v[1], v[2], v[3]) <= S
    requires FourRoot(H, x[0], x[1], x[2], x[3]) == FourRoot(H, v[0], v[1], v[2], v[3])
    ensures x == v
  {
    FourBind(H, S, x[0], x[1], x[2], x[3], v[0], v[1], v[2], v[3]);
  }

  lemma EightBind(H: HashFn, S: set<seq<Byte>>, P: Chunk, x: seq<Chunk>, y: seq<Chunk>, v: seq<Chunk>, w: seq<Chunk>)
    requires |x| == |y| == |v| == |w| == 4 && CollisionFree(H, S) && EightStrings(H, x, y) <= S && EightStrings(H, v, w) <= S
    requires FieldsRoot(H, P, x + y) == ContainerRoot(H, v + w)
    ensures x == v && y == w
  {
    EightRoot(H, P, x, y);
    FieldsRootIsContainerRoot(H, v + w);
    EightRoot(H, ZERO, v, w);
    var a, b := FourRoot(H, x[0], x[1], x[2], x[3]), FourRoot(H, y[0], y[1], y[2], y[3]);
    var c, d := FourRoot(H, v[0], v[1], v[2], v[3]), FourRoot(H, w[0], w[1], w[2], w[3]);
    assert Join(a, b) in EightStrings(H, x, y) && Join(c, d) in EightStrings(H, v, w);
    PairBinds(H, S, a, b, c, d);
    FourBindSeq(H, S, x, v);
    FourBindSeq(H, S, y, w);
  }

  ghost function BodyStrings(H: HashFn, b: BlockBody, roots: seq<Chunk>, row: Chunk, refs: seq<Chunk>, max: nat): set<seq<Byte>>
    requires |roots| == |refs| && Within(|refs|, max)
  {
    EightStrings(H, LeftFields(H, ZERO, b), RightFields(H, ZERO, AttsResult(H, roots, row, max), RowAfterList(H, roots, row)))
    + EightStrings(H, SszLeft(H, b), SszRight(H, SszListRoot(H, refs, max)))
  }

  lemma BodyBinds(H: HashFn, b: BlockBody, roots: seq<Chunk>, row: Chunk, refs: seq<Chunk>, max: nat)
    requires |roots| == |refs| && Within(|refs|, max) && CollisionFree(H, BodyStrings(H, b, roots, row, refs, max))
    requires BodyRoot(H, ZERO, b, roots, row, max) == SszBody(H, b, refs, max)
    ensures AttsResult(H, roots, row, max) == SszListRoot(H, refs, max)
  {
    var x, y := LeftFields(H, ZERO, b), RightFields(H, ZERO, AttsResult(H, roots, row, max), RowAfterList(H, roots, row));
    var v, w := SszLeft(H, b), SszRight(H, SszListRoot(H, refs, max));
    EightBind(H, BodyStrings(H, b, roots, row, refs, max), RowAfterList(H, roots, row), x, y, v, w);
    assert y[1] == w[1];
  }

  // ----- the block

  /** The strings hashed for the right-hand side of a block's tree, and for its root. */
  ghost function FifthStrings(H: HashFn, left: Chunk, body: Chunk, row: Chunk): set<seq<Byte>> {
    {Join(body, row), Join(HashPair(H, body, row), ZeroHash(H, 1)),
     Join(left, HashPair(H, HashPair(H, body, row), ZeroHash(H, 1)))}
  }

  function BlockLeft(H: HashFn, b: Block): Chunk {
    FourRoot(H, U64Chunk(b.slot), U64Chunk(b.proposer), b.parentRoot, b.stateRoot)
  }

  lemma BlockBinds(H: HashFn, b: Block, row: Chunk, body: Chunk, ref: Chunk)
    requires CollisionFree(H, FifthStrings(H, BlockLeft(H, b), body, row) + FifthStrings(H, BlockLeft(H, b), ref, ZERO))
    requires FieldsRoot(H, row, BlockFields(b, body)) == SszFive(H, b, ref)
    ensures body == ref && row == ZERO
  {
    var left, S := BlockLeft(H, b), FifthStrings(H, BlockLeft(H, b), body, row) + FifthStrings(H, BlockLeft(H, b), ref, ZERO);
    FiveFields(H, row, U64Chunk(b.slot), U64Chunk(b.proposer), b.parentRoot, b.stateRoot, body);
    FiveFields(H, ZERO, U64Chunk(b.slot), U64Chunk(b.proposer), b.parentRoot, b.stateRoot, ref);
    FieldsRootIsContainerRoot(H, BlockFields(b, ref));
    var x, y, z := HashPair(H, body, row), HashPair(H, ref, ZERO), ZeroHash(H, 1);
    PairBinds(H, S, left, HashPair(H, x, z), left, HashPair(H, y, z));
    PairBinds(H, S, x, z, y, z);
    PairBinds(H, S, body, row, ref, ZERO);
  }

  /** No strings collide that are hashed for the block, by the code and by the standard. */
  ghost predicate BlockFree(H: HashFn, b: Block, roots: seq<Chunk>, row: Chunk, refs: seq<Chunk>, max: nat)
    requires |roots| == |refs| && Within(|refs|, max)
  {
    && AllFree(H, b.body.attestations) && CollisionFree(H, ListStrings(H, roots, row, refs, max))
    && CollisionFree(H, BodyStrings(H, b.body, roots, row, refs, max))
    && CollisionFree(H, FifthStrings(H, BlockLeft(H, b), BodyRoot(H, ZERO, b.body, roots, row, max), RowAfterList(H, roots, row))
                        + FifthStrings(H, BlockLeft(H, b), SszBody(H, b.body, refs, max), ZERO))
  }

  /** From an intact table htrBeaconBlock is the SSZ root of a block if it has no attestations
      or two sound ones. */
  lemma SoundBlockIsSsz(H: HashFn, b: Block, rows: seq<Chunk>, roots: seq<Chunk>, refs: seq<Chunk>, max: nat)
    requires Within(|refs|, max) && RefAll(H, b.body.attestations, refs)
    requires HashesAll(H, ZERO, b.body.attestations, rows, roots) && SoundList(b.body.attestations)
    ensures BlockRoot(H, ZERO, b, roots, rows[|roots|], max) == SszBlock(H, b, refs, max)
    ensures RowAfterList(H, roots, rows[|roots|]) == ZERO
  {
    SoundAreSsz(H, b.body.attestations, rows, roots, refs);
    SoundRootsAreSsz(H, b, roots, max);
  }

  lemma SoundRootsAreSsz(H: HashFn, b: Block, roots: seq<Chunk>, max: nat)
    requires Within(|roots|, max) && (roots == [] || |roots| == ATTESTATIONS_MIX)
    ensures BlockRoot(H, ZERO, b, roots, ZERO, max) == SszBlock(H, b, roots, max) && RowAfterList(H, roots, ZERO) == ZERO
  {
    MixIsLength(H, roots, max);
    BodyIsSsz(H, b.body, roots, max);
    FieldsRootIsContainerRoot(H, BlockFields(b, SszBody(H, b.body, roots, max)));
  }

  /** And only then, unless strings hashed for the two collide or one hashes to zero. */
  lemma SszBlockIsSound(H: HashFn, b: Block, rows: seq<Chunk>, roots: seq<Chunk>, refs: seq<Chunk>, max: nat)
    requires Within(|refs|, max) && RefAll(H, b.body.attestations, refs)
    requires HashesAll(H, ZERO, b.body.attestations, rows, roots)
    requires BlockFree(H, b, roots, rows[|roots|], refs, max)
    requires BlockRoot(H, ZERO, b, roots, rows[|roots|], max) == SszBlock(H, b, refs, max)
    ensures SoundList(b.body.attestations)
  {
    var atts := b.body.attestations;
    if atts != [] {
      EqualRoots(H, b, roots, rows[|roots|], refs, max);
      SszAreSound(H, atts, rows, roots, refs);
    }
  }

  lemma EqualRoots(H: HashFn, b: Block, roots: seq<Chunk>, row: Chunk, refs: seq<Chunk>, max: nat)
    requires |roots| == |refs| > 0 && Within(|refs|, max) && BlockFree(H, b, roots, row, refs, max)
    requires BlockRoot(H, ZERO, b, roots, row, max) == SszBlock(H, b, refs, max)
    ensures |refs| == 2 && roots == refs
  {
    BlockBinds(H, b, RowAfterList(H, roots, row), BodyRoot(H, ZERO, b.body, roots, row, max), SszBody(H, b.body, refs, max));
    BodyBinds(H, b.body, roots, row, refs, max);
    LengthIsMix(H, roots, row, refs, max);
  }

  lemma BlockIsSszIff(H: HashFn, b: Block, rows: seq<Chunk>, roots: seq<Chunk>, refs: seq<Chunk>, max: nat)
    requires Within(|refs|, max) && RefAll(H, b.body.attestations, refs)
    requires HashesAll(H, ZERO, b.body.attestations, rows, roots)
    ensures SoundList(b.body.attestations) ==> BlockRoot(H, ZERO, b, roots, rows[|roots|], max) == SszBlock(H, b, refs, max)
    ensures BlockFree(H, b, roots, rows[|roots|], refs, max) ==>
              (BlockRoot(H, ZERO, b, roots, rows[|roots|], max) == SszBlock(H, b, refs, max) ==> SoundList(b.body.attestations))
  {
    if SoundList(b.body.attestations) {
      SoundBlockIsSsz(H, b, rows, roots, refs, max);
    } else if BlockFree(H, b, roots, rows[|roots|], refs, max)
              && BlockRoot(H, ZERO, b, roots, rows[|roots|], max) == SszBlock(H, b, refs, max) {
      SszBlockIsSound(H, b, rows, roots, refs, max);
    }
  }
}
