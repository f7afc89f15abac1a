/** Blocks of phase 0 with attestations, lib/merkleization.h lines 642-675 and 756-824: the list
    of attestations, whose elements may spoil row 0 for everything behind them, the body and the
    block, against the SSZ specification. */
module Blocks {
  import opened Words
  import opened MerkleTree
  import opened Hex
  import opened Merkleization
  import opened Containers

  /** A body whose other four operation lists are empty. */
  datatype BlockBody = BlockBody(randaoReveal: Bytes96, eth1Data: Eth1Data, graffiti: Chunk, attestations: seq<Attestation>)

  datatype Block = Block(slot: U64, proposer: U64, parentRoot: Chunk, stateRoot: Chunk, body: BlockBody)

  /** htrAttestations mixes in MAX_ATTESTER_SLASHINGS (line 669). */
  const ATTESTATIONS_MIX := 2

  /** A list within its limit. MAX_ATTESTATIONS is 128; the results hold for every limit from 2
      to that. */
  predicate Within(n: nat, max: nat) { n <= max && 2 <= max <= 128 }

  lemma WithinDepth(n: nat, max: nat)
    requires Within(n, max)
    ensures CoverDepth(max) == Log2Ceil(max) <= 8 && n <= Pow2(Log2Ceil(max))
  {
    CoverDepthCorrect(max);
  }

  // ----- the list of attestations

  /** Attestation i is hashed to roots[i] under row 0 as its predecessors left it, rows[i]. */
  ghost predicate Hashes(H: HashFn, atts: seq<Attestation>, rows: seq<Chunk>, roots: seq<Chunk>, i: nat)
    requires i < |atts| && i < |roots| && i + 1 < |rows|
  {
    roots[i] == AttRoot(H, rows[i], atts[i]) && rows[i + 1] == PadAfterBits(H, rows[i], atts[i])
  }

  /** From row P on, the first k attestations are hashed to these roots, with these rows 0. */
  ghost predicate HashesTo(H: HashFn, P: Chunk, atts: seq<Attestation>, rows: seq<Chunk>, roots: seq<Chunk>, k: nat) {
    && k == |roots| <= |atts| && |rows| == k + 1 && rows[0] == P
    && forall i :: 0 <= i < k ==> Hashes(H, atts, rows, roots, i)
  }

  ghost predicate HashesAll(H: HashFn, P: Chunk, atts: seq<Attestation>, rows: seq<Chunk>, roots: seq<Chunk>) {
    HashesTo(H, P, atts, rows, roots, |atts|)
  }

  lemma HashesLonger(H: HashFn, atts: seq<Attestation>, rows: seq<Chunk>, roots: seq<Chunk>, row: Chunk, root: Chunk, i: nat)
    requires i < |roots| <= |atts| && i + 1 < |rows| && Hashes(H, atts, rows, roots, i)
    ensures Hashes(H, atts, rows + [row], roots + [root], i)
  {
  }

  lemma HashNext(H: HashFn, atts: seq<Attestation>, rows: seq<Chunk>, roots: seq<Chunk>, k: nat) returns (row: Chunk, root: Chunk)
    requires |roots| == k < |atts| && |rows| == k + 1
    ensures Hashes(H, atts, rows + [row], roots + [root], k)
  {
    row, root := PadAfterBits(H, rows[k], atts[k]), AttRoot(H, rows[k], atts[k]);
  }

  /** Every list is hashed to some roots, with some rows 0. */
  lemma {:induction false} HashList(H: HashFn, P: Chunk, atts: seq<Attestation>, k: nat) returns (rows: seq<Chunk>, roots: seq<Chunk>)
    requires k <= |atts|
    ensures HashesTo(H, P, atts, rows, roots, k)
  {
    if k == 0 {
      rows, roots := [P], [];
    } else {
      rows, roots := HashList(H, P, atts, k - 1);
      var row, root := HashNext(H, atts, rows, roots, k - 1);
      forall i | 0 <= i < k - 1 ensures Hashes(H, atts, rows + [row], roots + [root], i) {
        HashesLonger(H, atts, rows, roots, row, root, i);
      }
      rows, roots := rows + [row], roots + [root];
    }
  }

  /** Root of the list, and row 0 after it: spoilt by an attestation, or by padding the list. */
  function AttsResult(H: HashFn, roots: seq<Chunk>, row: Chunk, max: nat): Chunk
    requires Within(|roots|, max)
  {
    WithinDepth(|roots|, max);
    ListResult(H, row, roots, Log2Ceil(max), ATTESTATIONS_MIX)
  }

  function RowAfterList(H: HashFn, roots: seq<Chunk>, row: Chunk): Chunk
    requires |roots| <= 128
  {
    NextPad(H, row, roots)
  }

  /** One pass of the leaf loop of htrAttestations: the attestation is hashed, then merged. */
  method MergeAttestation(m: Merkleizer, atts: seq<Attestation>, hArr: array<Chunk>, tmp: array<Chunk>, depth: nat, i: nat,
                          ghost rows: seq<Chunk>, ghost roots: seq<Chunk>, ghost xs: seq<Chunk>)
    requires m.Valid() && hArr.Length == 1 && tmp != hArr && tmp != m.zerohashes && hArr != m.zerohashes
    requires i < |roots| == |atts| <= 128 && depth == Log2Ceil(|atts|) < tmp.Length && i < |xs| && i + 1 < |rows|
    requires Hashes(m.H, atts, rows, roots, i) && rows[i] == m.zerohashes[0] && xs[i] == roots[i] && Pending(m.H, tmp[..], xs, i)
    modifies m.zerohashes, hArr, tmp
    ensures m.Valid() && m.zerohashes[0] == rows[i + 1] && Pending(m.H, tmp[..], xs, i + 1)
  {
    var root := HtrAtt(m, atts[i]);
    hArr[0] := root;
    m.MergeOne(hArr, tmp, |atts|, depth, i, roots, xs);
  }

  method MergeAttestations(m: Merkleizer, atts: seq<Attestation>, depth: nat, tmp: array<Chunk>,
                           ghost rows: seq<Chunk>, ghost roots: seq<Chunk>, ghost xs: seq<Chunk>)
    requires m.Valid() && tmp != m.zerohashes && |atts| <= 128 && depth == Log2Ceil(|atts|) < tmp.Length
    requires HashesAll(m.H, m.zerohashes[0], atts, rows, roots)
    requires |roots| <= |xs| && forall i :: 0 <= i < |roots| ==> xs[i] == roots[i]
    modifies m.zerohashes, tmp
    ensures m.Valid() && m.zerohashes[0] == rows[|atts|] && Pending(m.H, tmp[..], xs, |atts|)
  {
    var hArr := new Chunk[1](_ => ZERO);
    NothingPending(m.H, tmp[..], xs);
    for i := 0 to |atts|
      invariant m.Valid() && m.zerohashes[0] == rows[i] && Pending(m.H, tmp[..], xs, i)
    {
      MergeAttestation(m, atts, hArr, tmp, depth, i, rows, roots, xs);
    }
  }

  /** The non-empty branch of htrAttestations, up to the root at the limit depth. */
  method StreamAttestations(m: Merkleizer, atts: seq<Attestation>, depth: nat, limitDepth: nat,
                            ghost rows: seq<Chunk>, ghost roots: seq<Chunk>)
    returns (root: Chunk)
    requires m.Valid() && 0 < |atts| <= 128 && |atts| <= Pow2(limitDepth) && limitDepth <= 8 && depth == Log2Ceil(|atts|)
    requires HashesAll(m.H, m.zerohashes[0], atts, rows, roots)
    modifies m.zerohashes
    ensures m.Valid() && m.zerohashes[0] == NextPad(m.H, rows[|atts|], roots)
    ensures root == TreeResult(m.H, rows[|atts|], roots, limitDepth)
  {
    ghost var Q := rows[|atts|];
    ghost var xs := Effective(roots, Q, limitDepth);
    EffectiveFits(roots, Q, limitDepth);
    var tmp := new Chunk[limitDepth + 1](_ => ZERO);
    MergeAttestations(m, atts, depth, tmp, rows, roots, xs);
    m.Pad(tmp, |atts|, depth, limitDepth, roots);
    m.Extend(tmp, depth, limitDepth, Q, roots);
    root := tmp[limitDepth];
  }

  /** htrAttestations */
  method HtrAttestations(m: Merkleizer, atts: seq<Attestation>, max: nat, ghost rows: seq<Chunk>, ghost roots: seq<Chunk>)
    returns (htr: Chunk)
    requires m.Valid() && Within(|atts|, max) && HashesAll(m.H, m.zerohashes[0], atts, rows, roots)
    modifies m.zerohashes
    ensures m.Valid() && m.zerohashes[0] == RowAfterList(m.H, roots, rows[|atts|])
    ensures htr == AttsResult(m.H, roots, rows[|atts|], max)
  {
    WithinDepth(|atts|, max);
    CoverDepthCorrect(|atts|);
    var depth, limitDepth := CoverDepth(|atts|), CoverDepth(max);
    if |atts| == 0 {
      htr := HashPair(m.H, m.zerohashes[limitDepth], m.zerohashes[0]);
    } else {
      var root := StreamAttestations(m, atts, depth, limitDepth, rows, roots);
      var htrlimit := HtrU64(ATTESTATIONS_MIX);
      htr := HashPair(m.H, root, htrlimit);
    }
  }

  // ----- the body and the block

  function FourRoot(H: HashFn, a: Chunk, b: Chunk, c: Chunk, d: Chunk): Chunk {
    HashPair(H, HashPair(H, a, b), HashPair(H, c, d))
  }

  function EmptyList(H: HashFn, P: Chunk, d: nat): Chunk { ListResult(H, P, [], d, 0) }

  /** A list hasher on an empty list; d is the depth of its limit. */
  method HtrEmptyList(m: Merkleizer, max: nat, d: nat) returns (htr: Chunk)
    requires m.Valid() && CoverDepth(max) == d <= 8
    ensures htr == EmptyList(m.H, m.zerohashes[0], d)
  {
    htr := HashPair(m.H, m.zerohashes[d], m.zerohashes[0]);
  }

  /** The four fields before the attester slashings. */
  function LeftFields(H: HashFn, P: Chunk, b: BlockBody): (r: seq<Chunk>)
    ensures |r| == 4
  {
    [SignatureRoot(H, P, b.randaoReveal), Eth1Root(H, P, b.eth1Data), b.graffiti, EmptyList(H, P, 4)]
  }

  /** The four others; Q is row 0 behind the attestations. */
  function RightFields(H: HashFn, P: Chunk, list: Chunk, Q: Chunk): (r: seq<Chunk>)
    ensures |r| == 4
  {
    [EmptyList(H, P, 1), list, EmptyList(H, Q, 4), EmptyList(H, Q, 4)]
  }

  /** The fields of a body whose attestations have these roots and leave this row behind. */
  function BodyFields(H: HashFn, P: Chunk, b: BlockBody, roots: seq<Chunk>, row: Chunk, max: nat): (r: seq<Chunk>)
    requires Within(|roots|, max)
    ensures |r| == 8
  {
    LeftFields(H, P, b) + RightFields(H, P, AttsResult(H, roots, row, max), RowAfterList(H, roots, row))
  }

  function BodyRoot(H: HashFn, P: Chunk, b: BlockBody, roots: seq<Chunk>, row: Chunk, max: nat): Chunk
    requires Within(|roots|, max)
  {
    FieldsRoot(H, RowAfterList(H, roots, row), BodyFields(H, P, b, roots, row, max))
  }

  function BlockFields(b: Block, body: Chunk): (r: seq<Chunk>)
    ensures |r| == 5
  {
    [U64Chunk(b.slot), U64Chunk(b.proposer), b.parentRoot, b.stateRoot, body]
  }

  function BlockRoot(H: HashFn, P: Chunk, b: Block, roots: seq<Chunk>, row: Chunk, max: nat): Chunk
    requires Within(|roots|, max)
  {
    FieldsRoot(H, RowAfterList(H, roots, row), BlockFields(b, BodyRoot(H, P, b.body, roots, row, max)))
  }

  /** htrBeaconBlockBody, lines 771-778: the first four fields, into register 0. */
  method BodyLeft(m: Merkleizer, b: BlockBody, tmp: array<Chunk>)
    requires m.Valid() && tmp.Length == 4 && tmp != m.zerohashes
    modifies tmp
    ensures var f := LeftFields(m.H, m.zerohashes[0], b); tmp[0] == FourRoot(m.H, f[0], f[1], f[2], f[3])
  {
    LimitDepths();
    tmp[0] := HtrSignature(m, b.randaoReveal);
    tmp[1] := HtrEth1Data(m, b.eth1Data);
    tmp[0] := HashPair(m.H, tmp[0], tmp[1]);
    tmp[2] := HtrEmptyList(m, 16, 4);
    tmp[1] := HashPair(m.H, b.graffiti, tmp[2]);
    tmp[0] := HashPair(m.H, tmp[0], tmp[1]);
  }

  lemma LimitDepths()
    ensures CoverDepth(16) == 4 && CoverDepth(2) == 1
  {
  }

  /** htrBeaconBlockBody, lines 780-782: attester slashings and attestations, into register 1. */
  method BodyMiddle(m: Merkleizer, atts: seq<Attestation>, tmp: array<Chunk>, max: nat, ghost rows: seq<Chunk>, ghost roots: seq<Chunk>)
    requires m.Valid() && tmp.Length == 4 && tmp != m.zerohashes
    requires Within(|atts|, max) && HashesAll(m.H, m.zerohashes[0], atts, rows, roots)
    modifies tmp, m.zerohashes
    ensures tmp[0] == old(tmp[0])
    ensures m.Valid() && m.zerohashes[0] == RowAfterList(m.H, roots, rows[|atts|])
    ensures tmp[1] == HashPair(m.H, EmptyList(m.H, old(m.zerohashes[0]), 1), AttsResult(m.H, roots, rows[|atts|], max))
  {
    LimitDepths();
    tmp[1] := HtrEmptyList(m, 2, 1);
    var list := HtrAttestations(m, atts, max, rows, roots);
    tmp[2] := list;
    tmp[1] := HashPair(m.H, tmp[1], tmp[2]);
  }

  /** Lines 784-789: deposits and voluntary exits, then the right half into register 1. */
  method BodyEnd(m: Merkleizer, tmp: array<Chunk>)
    requires m.Valid() && tmp.Length == 4 && tmp != m.zerohashes
    modifies tmp
    ensures tmp[0] == old(tmp[0])
    ensures var e := EmptyList(m.H, m.zerohashes[0], 4); tmp[1] == HashPair(m.H, old(tmp[1]), HashPair(m.H, e, e))
  {
    LimitDepths();
    tmp[2] := HtrEmptyList(m, 16, 4);
    tmp[3] := HtrEmptyList(m, 16, 4);
    tmp[2] := HashPair(m.H, tmp[2], tmp[3]);
    tmp[1] := HashPair(m.H, tmp[1], tmp[2]);
  }

  lemma EightRoot(H: HashFn, P: Chunk, left: seq<Chunk>, right: seq<Chunk>)
    requires |left| == |right| == 4
    ensures FieldsRoot(H, P, left + right)
         == HashPair(H, FourRoot(H, left[0], left[1], left[2], left[3]), FourRoot(H, right[0], right[1], right[2], right[3]))
  {
    var xs := left + right;
    EightFields(H, P, xs);
    assert forall i :: 0 <= i < 4 ==> xs[i] == left[i] && xs[4 + i] == right[i];
  }

  /** htrBeaconBlockBody */
  method HtrBody(m: Merkleizer, b: BlockBody, max: nat, ghost rows: seq<Chunk>, ghost roots: seq<Chunk>) returns (htr: Chunk)
    requires m.Valid() && Within(|b.attestations|, max) && HashesAll(m.H, m.zerohashes[0], b.attestations, rows, roots)
    modifies m.zerohashes
    ensures m.Valid() && m.zerohashes[0] == RowAfterList(m.H, roots, rows[|roots|])
    ensures htr == BodyRoot(m.H, old(m.zerohashes[0]), b, roots, rows[|roots|], max)
  {
    ghost var P := m.zerohashes[0];
    var tmp := new Chunk[4](_ => ZERO);
    BodyLeft(m, b, tmp);
    BodyMiddle(m, b.attestations, tmp, max, rows, roots);
    BodyEnd(m, tmp);
    htr := HashPair(m.H, tmp[0], tmp[1]);
    EightRoot(m.H, m.zerohashes[0], LeftFields(m.H, P, b),
              RightFields(m.H, P, AttsResult(m.H, roots, rows[|roots|], max), m.zerohashes[0]));
  }

  /** htrBeaconBlock */
  method HtrBlock(m: Merkleizer, b: Block, max: nat, ghost rows: seq<Chunk>, ghost roots: seq<Chunk>) returns (htr: Chunk)
    requires m.Valid() && Within(|b.body.attestations|, max)
    requires HashesAll(m.H, m.zerohashes[0], b.body.attestations, rows, roots)
    modifies m.zerohashes
    ensures m.Valid() && m.zerohashes[0] == RowAfterList(m.H, roots, rows[|roots|])
    ensures htr == BlockRoot(m.H, old(m.zerohashes[0]), b, roots, rows[|roots|], max)
  {
    var tmp := new Chunk[2](_ => ZERO);
    tmp[0] := HtrU64(b.slot);
    tmp[1] := HtrU64(b.proposer);
    tmp[0] := HashPair(m.H, tmp[0], tmp[1]);
    tmp[1] := HashPair(m.H, b.parentRoot, b.stateRoot);
    tmp[0] := HashPair(m.H, tmp[0], tmp[1]);
    var body := HtrBody(m, b.body, max, rows, roots);
    tmp[1] := body;
    tmp[1] := HashPair(m.H, tmp[1], m.zerohashes[0]);
    tmp[1] := HashPair(m.H, tmp[1], m.zerohashes[1]);
    htr := HashPair(m.H, tmp[0], tmp[1]);
    FiveFields(m.H, m.zerohashes[0], U64Chunk(b.slot), U64Chunk(b.proposer), b.parentRoot, b.stateRoot, body);
  }
}
