/** The container hashers of lib/merkleization.h, lines 248-426, against the SSZ specification.
    Straight-line code over a few 32-byte registers, in which row 0 of the zero-hash table plays
    the missing field. */
module Containers {
  import opened Words
  import opened MerkleTree
  import opened Hex
  import opened Merkleization
  import opened Bitlist
  import opened BitlistProperties
  import opened MerkleRuns

  type Bytes96 = s: seq<Byte> | |s| == 96 witness ZeroBytes(96)
  type Bytes4 = s: seq<Byte> | |s| == 4 witness ZeroBytes(4)

  datatype Checkpoint = Checkpoint(epoch: U64, root: Chunk)

  datatype AttestationData = AttestationData(slot: U64, index: U64, blockRoot: Chunk, source: Checkpoint, target: Checkpoint)

  /** Hex digits in pairs. */
  type HexText = s: seq<char> | AllHex(s) && |s| % 2 == 0 witness []

  /** aggregationBits is the text of the serialized bit list, behind its 0x. */
  datatype Attestation = Attestation(aggregationBits: HexText, data: AttestationData, signature: Bytes96)

  datatype AggregateAndProof = AggregateAndProof(aggregator: U64, aggregate: Attestation, selectionProof: Bytes96)

  datatype Eth1Data = Eth1Data(depositRoot: Chunk, depositCount: U64, blockHash: Chunk)

  datatype ForkInfo = ForkInfo(currentVersion: Bytes4, genesisRoot: Chunk)

  lemma U64Fits(x: U64)
    ensures x < Pow256(8)
  {
    assert Pow256(2) == 256 * Pow256(1) && Pow256(4) == 256 * Pow256(3) && Pow256(6) == 256 * Pow256(5) && Pow256(8) == 256 * Pow256(7);
  }

  method HtrU64(x: U64) returns (r: Chunk)
    ensures r == U64Chunk(x)
  {
    U64Fits(x);
    r := Htru64(x);
  }

  // ----- trees of two, three, five and eight fields

  lemma RootOfTwo(H: HashFn, a: Chunk, b: Chunk)
    ensures |[a, b]| == Pow2(1) && MerkleRoot(H, [a, b], 1) == HashPair(H, a, b)
  {
    SmallPowers();
    assert [a, b][..1] == [a] && [a, b][1..] == [b];
  }

  lemma RootOfFour(H: HashFn, xs: seq<Chunk>)
    requires |xs| == 4
    ensures |xs| == Pow2(2) && MerkleRoot(H, xs, 2) == HashPair(H, HashPair(H, xs[0], xs[1]), HashPair(H, xs[2], xs[3]))
  {
    SmallPowers();
    RootOfTwo(H, xs[0], xs[1]);
    RootOfTwo(H, xs[2], xs[3]);
    assert xs[..2] == [xs[0], xs[1]] && xs[2..] == [xs[2], xs[3]];
  }

  lemma RootOfEight(H: HashFn, xs: seq<Chunk>)
    requires |xs| == 8
    ensures |xs| == Pow2(3)
    ensures MerkleRoot(H, xs, 3) ==
            HashPair(H, HashPair(H, HashPair(H, xs[0], xs[1]), HashPair(H, xs[2], xs[3])),
                        HashPair(H, HashPair(H, xs[4], xs[5]), HashPair(H, xs[6], xs[7])))
  {
    SmallPowers();
    var a, b := xs[..4], xs[4..];
    RootOfFour(H, a);
    RootOfFour(H, b);
  }

  lemma SmallDepths()
    ensures Log2Ceil(2) == 1 && Log2Ceil(3) == 2 && Log2Ceil(5) == 3 && Log2Ceil(8) == 3
    ensures Pow2(1) == 2 && Pow2(2) == 4 && Pow2(3) == 8 && !Full(3) && !Full(5) && Full(8) && Full(2)
  {
    SmallPowers();
    LeastCoverUnique(2, 1, Log2Ceil(2));
    LeastCoverUnique(3, 2, Log2Ceil(3));
    LeastCoverUnique(5, 3, Log2Ceil(5));
    LeastCoverUnique(8, 3, Log2Ceil(8));
  }

  /** hash_tree_root of a container in the SSZ specification, from its fields' roots. */
  function ContainerRoot(H: HashFn, fields: seq<Chunk>): Chunk { PaddedRoot(H, fields, Log2Ceil(|fields|)) }

  /** The same as this code computes it when row 0 of the table holds P. */
  function FieldsRoot(H: HashFn, P: Chunk, fields: seq<Chunk>): Chunk
    requires |fields| <= 256
  {
    TreeResult(H, P, fields, Log2Ceil(|fields|))
  }

  lemma ThreeFields(H: HashFn, P: Chunk, a: Chunk, b: Chunk, c: Chunk)
    ensures FieldsRoot(H, P, [a, b, c]) == HashPair(H, HashPair(H, a, b), HashPair(H, c, P))
  {
    SmallDepths();
    var xs := [a, b, c] + [P];
    assert Effective([a, b, c], P, 2) == xs && ZeroPadded(xs, 2) == xs;
    RootOfFour(H, xs);
  }

  lemma FiveFields(H: HashFn, P: Chunk, a: Chunk, b: Chunk, c: Chunk, d: Chunk, e: Chunk)
    ensures FieldsRoot(H, P, [a, b, c, d, e]) ==
            HashPair(H, HashPair(H, HashPair(H, a, b), HashPair(H, c, d)), HashPair(H, HashPair(H, e, P), ZeroHash(H, 1)))
  {
    SmallDepths();
    var fields := [a, b, c, d, e];
    var xs, ys := fields + [P], fields + [P, ZERO, ZERO];
    assert Effective(fields, P, 3) == xs;
    assert ZeroPadded(xs, 3) == ys by { assert Zeros(2) == [ZERO, ZERO]; }
    RootOfEight(H, ys);
    assert ZeroHash(H, 1) == HashPair(H, ZERO, ZERO) by { assert ZeroHash(H, 0) == ZERO; }
  }

  lemma EightFields(H: HashFn, P: Chunk, xs: seq<Chunk>)
    requires |xs| == 8
    ensures FieldsRoot(H, P, xs) ==
            HashPair(H, HashPair(H, HashPair(H, xs[0], xs[1]), HashPair(H, xs[2], xs[3])),
                        HashPair(H, HashPair(H, xs[4], xs[5]), HashPair(H, xs[6], xs[7])))
  {
    SmallDepths();
    assert Effective(xs, P, 3) == xs && ZeroPadded(xs, 3) == xs;
    RootOfEight(H, xs);
  }

  /** From an intact table the code's container root is the SSZ one. */
  lemma FieldsRootIsContainerRoot(H: HashFn, fields: seq<Chunk>)
    requires |fields| < 256
    ensures FieldsRoot(H, ZERO, fields) == ContainerRoot(H, fields)
  {
    TreeCorrectIff(H, ZERO, fields, Log2Ceil(|fields|));
  }

  // ----- what each hasher returns when row 0 holds P

  function SignatureChunks(s: Bytes96): (r: seq<Chunk>)
    ensures |r| == 3
  {
    var b: seq<Byte> := s;
    [b[..32], b[32..64], b[64..]]
  }

  function SignatureRoot(H: HashFn, P: Chunk, s: Bytes96): Chunk { FieldsRoot(H, P, SignatureChunks(s)) }

  function CheckpointRoot(H: HashFn, c: Checkpoint): Chunk { HashPair(H, U64Chunk(c.epoch), c.root) }

  function DataFields(H: HashFn, a: AttestationData): (r: seq<Chunk>)
    ensures |r| == 5
  {
    [U64Chunk(a.slot), U64Chunk(a.index), a.blockRoot, CheckpointRoot(H, a.source), CheckpointRoot(H, a.target)]
  }

  function DataRoot(H: HashFn, P: Chunk, a: AttestationData): Chunk { FieldsRoot(H, P, DataFields(H, a)) }

  function Eth1Root(H: HashFn, P: Chunk, e: Eth1Data): Chunk {
    FieldsRoot(H, P, [e.depositRoot, U64Chunk(e.depositCount), e.blockHash])
  }

  /** htrBLSSignature */
  method HtrSignature(m: Merkleizer, sign: Bytes96) returns (htr: Chunk)
    requires m.Valid()
    ensures htr == SignatureRoot(m.H, m.zerohashes[0], sign)
  {
    var b: seq<Byte> := sign;
    var tmp := new Chunk[2](_ => ZERO);
    tmp[0] := HashPair(m.H, b[..32], b[32..64]);
    tmp[1] := HashPair(m.H, b[64..], m.zerohashes[0]);
    htr := HashPair(m.H, tmp[0], tmp[1]);
    ThreeFields(m.H, m.zerohashes[0], b[..32], b[32..64], b[64..]);
  }

  /** htrAttDat: four registers, each used twice. */
  method HtrAttDat(m: Merkleizer, a: AttestationData) returns (htr: Chunk)
    requires m.Valid()
    ensures htr == DataRoot(m.H, m.zerohashes[0], a)
  {
    var tmp := new Chunk[4](_ => ZERO);
    var slot := HtrU64(a.slot);
    var index := HtrU64(a.index);
    tmp[0] := HashPair(m.H, slot, index);
    var srcEpoch := HtrU64(a.source.epoch);
    tmp[1] := HashPair(m.H, srcEpoch, a.source.root);
    tmp[3] := HashPair(m.H, a.blockRoot, tmp[1]);
    tmp[2] := HashPair(m.H, tmp[0], tmp[3]);
    var tgtEpoch := HtrU64(a.target.epoch);
    tmp[0] := HashPair(m.H, tgtEpoch, a.target.root);
    tmp[1] := HashPair(m.H, tmp[0], m.zerohashes[0]);
    tmp[3] := HashPair(m.H, tmp[1], m.zerohashes[1]);
    htr := HashPair(m.H, tmp[2], tmp[3]);
    FiveFields(m.H, m.zerohashes[0], U64Chunk(a.slot), U64Chunk(a.index), a.blockRoot,
               CheckpointRoot(m.H, a.source), CheckpointRoot(m.H, a.target));
  }

  /** htrEth1Data */
  method HtrEth1Data(m: Merkleizer, e: Eth1Data) returns (htr: Chunk)
    requires m.Valid()
    ensures htr == Eth1Root(m.H, m.zerohashes[0], e)
  {
    var tmp := new Chunk[2](_ => ZERO);
    tmp[0] := HtrU64(e.depositCount);
    tmp[0] := HashPair(m.H, e.depositRoot, tmp[0]);
    tmp[1] := HashPair(m.H, e.blockHash, m.zerohashes[0]);
    htr := HashPair(m.H, tmp[0], tmp[1]);
    ThreeFields(m.H, m.zerohashes[0], e.depositRoot, U64Chunk(e.depositCount), e.blockHash);
  }

  // ----- attestations: the bit list hasher may spoil row 0 for the fields after it

  /** MAX_VALIDATORS_PER_COMMITTEE bits are 8 chunks. */
  const COMMITTEE_DEPTH := 3

  /** The bit list the text stands for. */
  function BitBytes(a: Attestation): (r: seq<Byte>) { DecodeHex(a.aggregationBits) }

  /** The text the code reads: its length is kept in eight bits (line 354). */
  function ReadText(a: Attestation): (r: seq<char>)
    ensures AllHex(r) && |r| == |a.aggregationBits| % 256 && |r| % 2 == 0
  {
    a.aggregationBits[..|a.aggregationBits| % 256]
  }

  function ReadBytes(a: Attestation): (r: seq<Byte>)
    ensures |r| <= 127
  {
    DecodeHex(ReadText(a))
  }

  lemma ReadFits(a: Attestation)
    ensures BitlistLen(ReadBytes(a)) <= 1015 && ChunkCount(BitlistLen(ReadBytes(a))) <= 4
    ensures Pow2(COMMITTEE_DEPTH) == 8
  {
    BitlistLenBounds(ReadBytes(a));
    SmallPowers();
  }

  function PadAfterBits(H: HashFn, P: Chunk, a: Attestation): Chunk {
    ReadFits(a);
    NextPad(H, P, Chunks(ReadBytes(a)))
  }

  function AttFields(H: HashFn, P: Chunk, a: Attestation): (r: seq<Chunk>)
    ensures |r| == 3
  {
    ReadFits(a);
    var Q := PadAfterBits(H, P, a);
    [BitlistResult(H, P, ReadBytes(a), COMMITTEE_DEPTH), DataRoot(H, Q, a.data), SignatureRoot(H, Q, a.signature)]
  }

  function AttRoot(H: HashFn, P: Chunk, a: Attestation): Chunk {
    FieldsRoot(H, PadAfterBits(H, P, a), AttFields(H, P, a))
  }

  lemma CommitteeDepth()
    ensures CoverDepth(ChunkCount(2048)) == COMMITTEE_DEPTH
  {
  }

  /** Lines 353-359: the text into the buffer, and its bit list hashed. */
  method HtrBits(m: Merkleizer, a: Attestation) returns (htr: Chunk)
    requires m.Valid()
    modifies m.zerohashes
    ensures m.Valid() && m.zerohashes[0] == PadAfterBits(m.H, old(m.zerohashes[0]), a)
    ensures htr == AttFields(m.H, old(m.zerohashes[0]), a)[0]
  {
    var bitsLen := |a.aggregationBits| % 256;
    var bin := new Byte[257](_ => 0);
    var n := Hex2Bin(ReadText(a), bin, bitsLen / 2);
    assert bin[..bitsLen / 2] == ReadBytes(a);
    ReadFits(a);
    CommitteeDepth();
    htr := HtrBitlist(m, bin[..bitsLen / 2], 2048);
  }

  /** htrAtt */
  method HtrAtt(m: Merkleizer, a: Attestation) returns (htr: Chunk)
    requires m.Valid()
    modifies m.zerohashes
    ensures m.Valid() && m.zerohashes[0] == PadAfterBits(m.H, old(m.zerohashes[0]), a)
    ensures htr == AttRoot(m.H, old(m.zerohashes[0]), a)
  {
    ghost var f := AttFields(m.H, m.zerohashes[0], a);
    var tmp := new Chunk[2](_ => ZERO);
    var t0 := HtrBits(m, a);
    var t1 := HtrAttDat(m, a.data);
    tmp[0], tmp[1] := t0, t1;
    tmp[0] := HashPair(m.H, tmp[0], tmp[1]);
    tmp[1] := HtrSignature(m, a.signature);
    tmp[1] := HashPair(m.H, tmp[1], m.zerohashes[0]);
    htr := HashPair(m.H, tmp[0], tmp[1]);
    ThreeFields(m.H, m.zerohashes[0], f[0], f[1], f[2]);
  }

  function AggRoot(H: HashFn, P: Chunk, a: AggregateAndProof): Chunk {
    var Q := PadAfterBits(H, P, a.aggregate);
    FieldsRoot(H, Q, [U64Chunk(a.aggregator), AttRoot(H, P, a.aggregate), SignatureRoot(H, Q, a.selectionProof)])
  }

  /** htrAggAndProof */
  method HtrAggAndProof(m: Merkleizer, a: AggregateAndProof) returns (htr: Chunk)
    requires m.Valid()
    modifies m.zerohashes
    ensures m.Valid() && m.zerohashes[0] == PadAfterBits(m.H, old(m.zerohashes[0]), a.aggregate)
    ensures htr == AggRoot(m.H, old(m.zerohashes[0]), a)
  {
    ghost var P := m.zerohashes[0];
    var tmp := new Chunk[2](_ => ZERO);
    tmp[0] := HtrU64(a.aggregator);
    tmp[1] := HtrAtt(m, a.aggregate);
    tmp[0] := HashPair(m.H, tmp[0], tmp[1]);
    tmp[1] := HtrSignature(m, a.selectionProof);
    tmp[1] := HashPair(m.H, tmp[1], m.zerohashes[0]);
    htr := HashPair(m.H, tmp[0], tmp[1]);
    ThreeFields(m.H, m.zerohashes[0], U64Chunk(a.aggregator), AttRoot(m.H, P, a.aggregate),
                SignatureRoot(m.H, m.zerohashes[0], a.selectionProof));
  }

  // ----- the SSZ reference of each container

  /** pack of the SSZ specification on bytes that fill their chunks: byte k goes to chunk k / 32. */
  function Packed(s: seq<Byte>): (r: seq<Chunk>)
    requires |s| % 32 == 0
    ensures |r| == |s| / 32 && forall i, j :: 0 <= i < |r| && 0 <= j < 32 ==> r[i][j] == s[32 * i + j]
  {
    seq(|s| / 32, i requires 0 <= i < |s| / 32 => s[32 * i..32 * i + 32])
  }

  function SszSignature(H: HashFn, s: Bytes96): Chunk { ContainerRoot(H, Packed(s)) }

  /** The three parts the code hashes are the bytes in their order. */
  lemma SignatureIsPacked(s: Bytes96)
    ensures SignatureChunks(s) == Packed(s)
    ensures forall k :: 0 <= k < 96 ==> SignatureChunks(s)[k / 32][k % 32] == s[k]
  {
    var a, b := SignatureChunks(s), Packed(s);
    assert a[0] == b[0] && a[1] == b[1] && a[2] == b[2];
  }

  lemma SignatureIsSsz(H: HashFn, s: Bytes96)
    ensures SignatureRoot(H, ZERO, s) == SszSignature(H, s)
  {
    SignatureIsPacked(s);
    FieldsRootIsContainerRoot(H, SignatureChunks(s));
  }

  function SszCheckpoint(H: HashFn, c: Checkpoint): Chunk { ContainerRoot(H, [U64Chunk(c.epoch), c.root]) }

  function SszData(H: HashFn, a: AttestationData): Chunk {
    ContainerRoot(H, [U64Chunk(a.slot), U64Chunk(a.index), a.blockRoot, SszCheckpoint(H, a.source), SszCheckpoint(H, a.target)])
  }

  /** The aggregation bits are within MAX_VALIDATORS_PER_COMMITTEE. */
  predicate BitsFit(a: Attestation) { ChunkCount(BitlistLen(BitBytes(a))) <= Pow2(COMMITTEE_DEPTH) }

  function SszBits(H: HashFn, a: Attestation): Chunk
    requires BitsFit(a)
  {
    SszBitlistRoot(H, Deserialize(BitBytes(a)), COMMITTEE_DEPTH)
  }

  function SszAttestation(H: HashFn, a: Attestation): Chunk
    requires BitsFit(a)
  {
    ContainerRoot(H, [SszBits(H, a), SszData(H, a.data), SszSignature(H, a.signature)])
  }

  function SszAggregate(H: HashFn, a: AggregateAndProof): Chunk
    requires BitsFit(a.aggregate)
  {
    ContainerRoot(H, [U64Chunk(a.aggregator), SszAttestation(H, a.aggregate), SszSignature(H, a.selectionProof)])
  }

  function SszEth1(H: HashFn, e: Eth1Data): Chunk {
    ContainerRoot(H, [e.depositRoot, U64Chunk(e.depositCount), e.blockHash])
  }

  lemma CheckpointIsSsz(H: HashFn, c: Checkpoint)
    ensures CheckpointRoot(H, c) == SszCheckpoint(H, c)
  {
    SmallDepths();
    var xs := [U64Chunk(c.epoch), c.root];
    assert ZeroPadded(xs, 1) == xs;
    RootOfTwo(H, xs[0], xs[1]);
  }

  lemma DataIsSsz(H: HashFn, a: AttestationData)
    ensures DataRoot(H, ZERO, a) == SszData(H, a)
  {
    CheckpointIsSsz(H, a.source);
    CheckpointIsSsz(H, a.target);
    FieldsRootIsContainerRoot(H, DataFields(H, a));
  }

  // ----- when attestations and aggregates are hashed as the standard says

  /** The strings hashed for a tree of four leaves. */
  ghost function FourStrings(H: HashFn, a: Chunk, b: Chunk, c: Chunk, d: Chunk): set<seq<Byte>> {
    {Join(a, b), Join(c, d), Join(HashPair(H, a, b), HashPair(H, c, d))}
  }

  lemma FourBind(H: HashFn, S: set<seq<Byte>>, a: Chunk, b: Chunk, c: Chunk, d: Chunk, w: Chunk, x: Chunk, y: Chunk, z: Chunk)
    requires CollisionFree(H, S) && FourStrings(H, a, b, c, d) <= S && FourStrings(H, w, x, y, z) <= S
    requires HashPair(H, HashPair(H, a, b), HashPair(H, c, d)) == HashPair(H, HashPair(H, w, x), HashPair(H, y, z))
    ensures a == w && b == x && c == y && d == z
  {
    assert Join(a, b) in FourStrings(H, a, b, c, d) && Join(c, d) in FourStrings(H, a, b, c, d);
    assert Join(w, x) in FourStrings(H, w, x, y, z) && Join(y, z) in FourStrings(H, w, x, y, z);
    PairBinds(H, S, HashPair(H, a, b), HashPair(H, c, d), HashPair(H, w, x), HashPair(H, y, z));
    PairBinds(H, S, a, b, w, x);
    PairBinds(H, S, c, d, y, z);
  }

  /** Three fields hashed by the code with Q in row 0, and three hashed by the standard. */
  lemma ThreeBind(H: HashFn, S: set<seq<Byte>>, Q: Chunk, a: Chunk, b: Chunk, c: Chunk, x: Chunk, y: Chunk, z: Chunk)
    requires CollisionFree(H, S) && FourStrings(H, a, b, c, Q) <= S && FourStrings(H, x, y, z, ZERO) <= S
    ensures FieldsRoot(H, Q, [a, b, c]) == ContainerRoot(H, [x, y, z]) <==> a == x && b == y && c == z && Q == ZERO
  {
    ThreeFields(H, Q, a, b, c);
    ThreeFields(H, ZERO, x, y, z);
    FieldsRootIsContainerRoot(H, [x, y, z]);
    if FieldsRoot(H, Q, [a, b, c]) == ContainerRoot(H, [x, y, z]) {
      FourBind(H, S, a, b, c, Q, x, y, z, ZERO);
    }
  }

  /** The bit list fills no chunk or a power of two of them. */
  predicate RowKept(bytes: seq<Byte>) {
    var n := ChunkCount(BitlistLen(bytes)); n == 0 || Full(n)
  }

  /** Checkable before the call: the length of the text fits into eight bits, and hashing the
      bits needs no padding. */
  predicate Sound(a: Attestation) { |a.aggregationBits| < 256 && RowKept(BitBytes(a)) }

  /** The strings hashed for row 0 when the bit list spoils it. */
  ghost function RowStrings(H: HashFn, a: Attestation): set<seq<Byte>> {
    ReadFits(a);
    PadStrings(H, ZERO, Chunks(ReadBytes(a)))
  }

  lemma RowKeptIff(H: HashFn, a: Attestation)
    ensures RowKept(ReadBytes(a)) ==> PadAfterBits(H, ZERO, a) == ZERO
    ensures ZeroFree(H, RowStrings(H, a)) && PadAfterBits(H, ZERO, a) == ZERO ==> RowKept(ReadBytes(a))
  {
    ReadFits(a);
    if PadAfterBits(H, ZERO, a) == ZERO && !RowKept(ReadBytes(a)) { SpoiledRow(H, ZERO, Chunks(ReadBytes(a))); }
  }

  lemma TextLength(a: Attestation)
    ensures |a.aggregationBits| < 256 <==> BitlistLen(BitBytes(a)) <= 1015
  {
    BitlistLenBounds(BitBytes(a));
  }

  lemma ReadAll(a: Attestation)
    requires |a.aggregationBits| < 256
    ensures ReadText(a) == a.aggregationBits
  {
    assert |a.aggregationBits| % 256 == |a.aggregationBits|;
  }

  /** A text that fits is read as it stands; of any other a list of another length is read. */
  lemma ReadOrCut(a: Attestation)
    ensures |a.aggregationBits| < 256 ==> ReadBytes(a) == BitBytes(a)
    ensures |a.aggregationBits| >= 256 ==> BitlistLen(ReadBytes(a)) < BitlistLen(BitBytes(a))
  {
    TextLength(a);
    ReadFits(a);
    if |a.aggregationBits| < 256 { ReadAll(a); }
  }

  /** The strings hashed for the bit list by the code and by the standard, behind their trees. */
  ghost function BitsStrings(H: HashFn, a: Attestation): set<seq<Byte>>
    requires BitsFit(a)
  {
    ReadFits(a);
    {Join(TreeResult(H, ZERO, Chunks(ReadBytes(a)), COMMITTEE_DEPTH), U64Chunk(BitlistLen(ReadBytes(a)))),
     Join(PaddedRoot(H, Chunks(BitBytes(a)), COMMITTEE_DEPTH), U64Chunk(BitlistLen(BitBytes(a))))}
  }

  lemma BitsAreSszIff(H: HashFn, a: Attestation)
    requires BitsFit(a)
    ensures |a.aggregationBits| < 256 ==> AttFields(H, ZERO, a)[0] == SszBits(H, a)
    ensures CollisionFree(H, BitsStrings(H, a)) && AttFields(H, ZERO, a)[0] == SszBits(H, a) ==> |a.aggregationBits| < 256
  {
    ReadOrCut(a);
    ReadFits(a);
    if |a.aggregationBits| < 256 {
      IntactTree(H, Chunks(ReadBytes(a)), COMMITTEE_DEPTH);
    } else if CollisionFree(H, BitsStrings(H, a)) && AttFields(H, ZERO, a)[0] == SszBits(H, a) {
      var m, n := BitlistLen(ReadBytes(a)), BitlistLen(BitBytes(a));
      PairBinds(H, BitsStrings(H, a), TreeResult(H, ZERO, Chunks(ReadBytes(a)), COMMITTEE_DEPTH), U64Chunk(m),
                PaddedRoot(H, Chunks(BitBytes(a)), COMMITTEE_DEPTH), U64Chunk(n));
      SmallLength(m);
      SmallLength(n);
      U64ChunkInjective(m, n);
    }
  }

  /** The strings hashed for an attestation, by the code and by the standard. */
  ghost function AttStrings(H: HashFn, a: Attestation): set<seq<Byte>>
    requires BitsFit(a)
  {
    var f, Q := AttFields(H, ZERO, a), PadAfterBits(H, ZERO, a);
    BitsStrings(H, a) + FourStrings(H, f[0], f[1], f[2], Q)
    + FourStrings(H, SszBits(H, a), SszData(H, a.data), SszSignature(H, a.signature), ZERO)
  }

  /** No strings hashed for an attestation collide, and none hashed for row 0 hashes to zero. */
  ghost predicate AttFree(H: HashFn, a: Attestation)
    requires BitsFit(a)
  {
    CollisionFree(H, AttStrings(H, a)) && ZeroFree(H, RowStrings(H, a))
  }

  /** From an intact table, htrAtt is the SSZ root exactly when the text of its aggregation bits
      has fewer than 256 digits and they fill no chunk or a power of two of them; the other
      direction unless strings hashed for the two collide or one hashes to zero. */
  lemma AttIsSszIff(H: HashFn, a: Attestation)
    requires BitsFit(a)
    ensures Sound(a) ==> AttRoot(H, ZERO, a) == SszAttestation(H, a) && PadAfterBits(H, ZERO, a) == ZERO
    ensures AttFree(H, a) && AttRoot(H, ZERO, a) == SszAttestation(H, a) ==> Sound(a)
  {
    var Q, f := PadAfterBits(H, ZERO, a), AttFields(H, ZERO, a);
    var bits, data, sig := SszBits(H, a), SszData(H, a.data), SszSignature(H, a.signature);
    ReadOrCut(a);
    RowKeptIff(H, a);
    BitsAreSszIff(H, a);
    if Sound(a) {
      DataIsSsz(H, a.data);
      SignatureIsSsz(H, a.signature);
      FieldsRootIsContainerRoot(H, [bits, data, sig]);
    } else if AttFree(H, a) {
      FreeSubset(H, AttStrings(H, a), BitsStrings(H, a));
      ThreeBind(H, AttStrings(H, a), Q, f[0], f[1], f[2], bits, data, sig);
    }
  }

  lemma CountIsFull(n: nat)
    requires 0 < n <= 1024
    ensures Full(ChunkCount(n)) <==> n <= 512 || 768 < n
  {
    SmallDepths();
    FullTwo();
    LeastCoverUnique(4, 2, Log2Ceil(4));
    var c := ChunkCount(n);
    assert n <= 512 ==> c == 1 || c == 2;
    assert 512 < n <= 768 ==> c == 3;
    assert 768 < n ==> c == 4;
  }

  /** The condition in numbers of bits. */
  lemma SoundByLength(a: Attestation)
    ensures var n := BitlistLen(BitBytes(a)); Sound(a) <==> n <= 512 || 768 < n <= 1015
  {
    var n := BitlistLen(BitBytes(a));
    TextLength(a);
    if 0 < n <= 1024 { CountIsFull(n); }
  }

  /** Up to 512 aggregation bits the condition holds. */
  lemma SmallCommittee(H: HashFn, a: Attestation)
    requires BitlistLen(BitBytes(a)) <= 512 && BitsFit(a)
    ensures AttRoot(H, ZERO, a) == SszAttestation(H, a)
  {
    SoundByLength(a);
    AttIsSszIff(H, a);
  }

  /** With 513 to 768 aggregation bits, three chunks, and with more than 1015 it does not. */
  lemma LargeCommittee(H: HashFn, a: Attestation)
    requires 512 < BitlistLen(BitBytes(a)) <= 768 || 1015 < BitlistLen(BitBytes(a))
    requires BitsFit(a) && AttFree(H, a)
    ensures AttRoot(H, ZERO, a) != SszAttestation(H, a)
  {
    SoundByLength(a);
    AttIsSszIff(H, a);
  }

  /** The strings hashed for an aggregate, by the code and by the standard. */
  ghost function AggStrings(H: HashFn, a: AggregateAndProof): set<seq<Byte>>
    requires BitsFit(a.aggregate)
  {
    var Q := PadAfterBits(H, ZERO, a.aggregate);
    AttStrings(H, a.aggregate)
    + FourStrings(H, U64Chunk(a.aggregator), AttRoot(H, ZERO, a.aggregate), SignatureRoot(H, Q, a.selectionProof), Q)
    + FourStrings(H, U64Chunk(a.aggregator), SszAttestation(H, a.aggregate), SszSignature(H, a.selectionProof), ZERO)
  }

  ghost predicate AggFree(H: HashFn, a: AggregateAndProof)
    requires BitsFit(a.aggregate)
  {
    CollisionFree(H, AggStrings(H, a)) && ZeroFree(H, RowStrings(H, a.aggregate))
  }

  /** htrAggAndProof from an intact table, under the same condition. */
  lemma AggregateIsSszIff(H: HashFn, a: AggregateAndProof)
    requires BitsFit(a.aggregate)
    ensures Sound(a.aggregate) ==> AggRoot(H, ZERO, a) == SszAggregate(H, a)
    ensures AggFree(H, a) && AggRoot(H, ZERO, a) == SszAggregate(H, a) ==> Sound(a.aggregate)
  {
    var Q, S := PadAfterBits(H, ZERO, a.aggregate), AggStrings(H, a);
    var index, att, sig := U64Chunk(a.aggregator), SszAttestation(H, a.aggregate), SszSignature(H, a.selectionProof);
    AttIsSszIff(H, a.aggregate);
    if Sound(a.aggregate) {
      SignatureIsSsz(H, a.selectionProof);
      FieldsRootIsContainerRoot(H, [index, att, sig]);
    } else if AggFree(H, a) {
      FreeSubset(H, S, AttStrings(H, a.aggregate));
      ThreeBind(H, S, Q, index, AttRoot(H, ZERO, a.aggregate), SignatureRoot(H, Q, a.selectionProof), index, att, sig);
    }
  }
}
