/** An attestation of 513 aggregation bits and a hash function for which htrAtt returns a wrong
    root: the hypotheses of LargeCommittee are not void. */
module ToyAttestation {
  import opened Words
  import opened MerkleTree
  import opened Hex
  import opened Merkleization
  import opened Bitlist
  import opened MerkleRuns
  import opened Containers
  import opened ToyHash

  // ----- 513 bits, none of them set

  /** Their serialization: the delimiter is bit 1 of the last byte. */
  function Bytes65(): (r: seq<Byte>)
    ensures |r| == 65
  {
    ZeroBytes(64) + [2]
  }

  const DATA: AttestationData := AttestationData(0, 0, ZERO, Checkpoint(0, ZERO), Checkpoint(0, ZERO))

  function Example513(): Attestation { Attestation(HexOf(Bytes65()), DATA, ZeroBytes(96)) }

  lemma NoBits(bytes: seq<Byte>, k: nat)
    requires bytes == Bytes65() && k < 513
    ensures !Bit(bytes[k / 8], k % 8)
  {
    if k < 512 {
      assert bytes[k / 8] == 0;
      ZeroShift(k % 8);
    } else {
      assert k / 8 == 64 && k % 8 == 0;
    }
  }

  lemma {:induction false} ZeroShift(j: nat)
    ensures Shr(0, j) == 0
  {
    if j > 0 { ZeroShift(j - 1); }
  }

  lemma ExampleBits()
    ensures BitlistLen(Bytes65()) == 513 && |Deserialize(Bytes65())| == 513
    ensures forall k :: 0 <= k < 513 ==> !Deserialize(Bytes65())[k]
  {
    var bytes, bits := Bytes65(), Deserialize(Bytes65());
    assert BitIndex(2) == 1;
    forall k | 0 <= k < 513 ensures !bits[k] { NoBits(bytes, k); }
  }

  lemma {:induction false} PackNone(bits: seq<bool>, o: nat, n: nat)
    requires forall k :: 0 <= k < |bits| ==> !bits[k]
    ensures PackLow(bits, o, n) == 0
  {
    if n > 0 { PackNone(bits, o, n - 1); }
  }

  lemma ChunkOfNone(bits: seq<bool>, c: nat)
    requires forall k :: 0 <= k < |bits| ==> !bits[k]
    ensures PackChunk(bits, c) == ZERO
  {
    var r := PackChunk(bits, c);
    forall k | 0 <= k < 32 ensures r[k] == ZERO[k] { PackNone(bits, 256 * c + 8 * k, 8); }
  }

  lemma ChunksOfNone(bits: seq<bool>, n: nat)
    requires forall k :: 0 <= k < |bits| ==> !bits[k]
    ensures PackChunks(bits, n) == Zeros(n)
  {
    var r := PackChunks(bits, n);
    forall c | 0 <= c < n ensures r[c] == Zeros(n)[c] { ChunkOfNone(bits, c); }
  }

  lemma ThreeZeros()
    ensures Zeros(3) == [ZERO, ZERO, ZERO]
  {
    assert Zeros(1) == [ZERO] + Zeros(0) && Zeros(2) == [ZERO] + Zeros(1);
  }

  lemma ClearChunks(bytes: seq<Byte>, bits: seq<bool>)
    requires bits == Deserialize(bytes) && |bits| == 513 && forall k :: 0 <= k < 513 ==> !bits[k]
    ensures Chunks(bytes) == [ZERO, ZERO, ZERO]
  {
    ChunksOfNone(bits, ChunkCount(|bits|));
    ThreeZeros();
  }

  /** An attestation of 513 clear bits, everything else in it being zero. */
  ghost predicate Silent(a: Attestation) {
    && ReadBytes(a) == BitBytes(a) && BitlistLen(BitBytes(a)) == 513 && Chunks(BitBytes(a)) == [ZERO, ZERO, ZERO]
    && a.data == DATA && a.signature == ZeroBytes(96)
  }

  lemma ExampleIsSilent(a: Attestation)
    requires a == Example513()
    ensures Silent(a)
  {
    DecodeHexOf(Bytes65());
    ReadOrCut(a);
    ExampleBits();
    ClearChunks(Bytes65(), Deserialize(Bytes65()));
  }

  // ----- first bytes of its digests

  lemma ToyCode(a: Chunk, b: Chunk, i: Byte, j: Byte, k: Byte)
    requires a[0] == i && b[0] == j && k == Mix(i, j)
    ensures HashPair(Toy, a, b)[0] == k
  {
    ToyPair(a, b, i, j, k);
  }

  /** Four leaves. */
  lemma FourCode(a: Chunk, b: Chunk, c: Chunk, d: Chunk, i: Byte, j: Byte, k: Byte)
    requires i == Mix(a[0], b[0]) && j == Mix(c[0], d[0]) && k == Mix(i, j)
    ensures HashPair(Toy, HashPair(Toy, a, b), HashPair(Toy, c, d))[0] == k
  {
    ToyCode(a, b, a[0], b[0], i);
    ToyCode(c, d, c[0], d[0], j);
    ToyCode(HashPair(Toy, a, b), HashPair(Toy, c, d), i, j, k);
  }

  lemma ZeroCode(z1: Chunk, z2: Chunk, z3: Chunk)
    requires z1 == ZeroHash(Toy, 1) && z2 == ZeroHash(Toy, 2) && z3 == ZeroHash(Toy, 3)
    ensures z1 == HashPair(Toy, ZERO, ZERO) && z1[0] == 1 && z2[0] == 4 && z3[0] == 13
  {
    assert ZeroHash(Toy, 0) == ZERO;
    ToyCode(ZERO, ZERO, 0, 0, 1);
    ToyCode(z1, z1, 1, 1, 4);
    assert z3 == HashPair(Toy, z2, z2);
    ToyCode(z2, z2, 4, 4, 13);
  }

  /** Five leaves of which three are zero, beside x. */
  lemma FiveCode(x: Chunk, u: Chunk, i: Byte, j: Byte, k: Byte)
    requires u[0] == 1 && i == Mix(1, x[0]) && j == Mix(i, 1) && k == Mix(8, j)
    ensures HashPair(Toy, HashPair(Toy, HashPair(Toy, ZERO, ZERO), HashPair(Toy, ZERO, u)), HashPair(Toy, HashPair(Toy, u, x), u))[0] == k
  {
    var l, r := HashPair(Toy, HashPair(Toy, ZERO, ZERO), HashPair(Toy, ZERO, u)), HashPair(Toy, HashPair(Toy, u, x), u);
    FourCode(ZERO, ZERO, ZERO, u, 1, 3, 8);
    ToyCode(u, x, 1, x[0], i);
    ToyCode(HashPair(Toy, u, x), u, i, 1, j);
    ToyCode(l, r, 8, j, k);
  }

  lemma SilentDataFields(d: AttestationData, u: Chunk)
    requires d == DATA && u == HashPair(Toy, ZERO, ZERO)
    ensures DataFields(Toy, d) == [ZERO, ZERO, ZERO, u, u]
  {
    ZeroLength();
  }

  lemma SilentDataRoot(d: AttestationData, x: Chunk, u: Chunk)
    requires d == DATA && u == ZeroHash(Toy, 1) == HashPair(Toy, ZERO, ZERO)
    ensures DataRoot(Toy, x, d) ==
            HashPair(Toy, HashPair(Toy, HashPair(Toy, ZERO, ZERO), HashPair(Toy, ZERO, u)), HashPair(Toy, HashPair(Toy, u, x), u))
  {
    SilentDataFields(d, u);
    FiveFields(Toy, x, ZERO, ZERO, ZERO, u, u);
  }

  /** The data root when row 0 holds x. */
  lemma SilentData(d: AttestationData, x: Chunk, i: Byte, j: Byte, k: Byte)
    requires d == DATA && i == Mix(1, x[0]) && j == Mix(i, 1) && k == Mix(8, j)
    ensures DataRoot(Toy, x, d)[0] == k
  {
    var u := ZeroHash(Toy, 1);
    ZeroCode(u, ZeroHash(Toy, 2), ZeroHash(Toy, 3));
    SilentDataRoot(d, x, u);
    FiveCode(x, u, i, j, k);
  }

  lemma SilentSignature(s: Bytes96, x: Chunk, j: Byte, k: Byte)
    requires s == ZeroBytes(96) && j == Mix(0, x[0]) && k == Mix(1, j)
    ensures SignatureRoot(Toy, x, s)[0] == k
  {
    var t: seq<Byte> := s;
    assert t[..32] == ZERO && t[32..64] == ZERO && t[64..] == ZERO;
    ThreeFields(Toy, x, ZERO, ZERO, ZERO);
    FourCode(ZERO, ZERO, ZERO, x, 1, j, k);
  }

  lemma SilentRow(a: Attestation)
    requires Silent(a)
    ensures PadAfterBits(Toy, ZERO, a)[0] == 4
  {
    SmallDepths();
    ThreeFields(Toy, ZERO, ZERO, ZERO, ZERO);
    FourCode(ZERO, ZERO, ZERO, ZERO, 1, 1, 4);
  }

  lemma ZerosTree(H: HashFn, zs: seq<Chunk>, d: nat)
    requires |zs| <= Pow2(d) && |zs| < 256 && forall k :: 0 <= k < |zs| ==> zs[k] == ZERO
    ensures TreeResult(H, ZERO, zs, d) == ZeroHash(H, d) == PaddedRoot(H, zs, d)
  {
    IntactTree(H, zs, d);
    PaddedSame(zs, [], d);
    ZeroTree(H, d);
  }

  lemma LengthChunk()
    ensures U64Chunk(513)[0] == 1
  {
    assert LeBytes(513, 8)[0] == 1;
  }

  /** Code and standard hash the same tree of clear bits and the same length. */
  lemma SilentTrees(a: Attestation, d: nat)
    requires Silent(a) && d == COMMITTEE_DEPTH
    ensures 3 <= Pow2(d) && TreeResult(Toy, ZERO, Chunks(BitBytes(a)), d) == ZeroHash(Toy, d) == PaddedRoot(Toy, Chunks(BitBytes(a)), d)
  {
    SmallPowers();
    ZerosTree(Toy, Chunks(BitBytes(a)), d);
  }

  lemma SilentBits(a: Attestation, T: Chunk, n: Chunk)
    requires Silent(a) && T == ZeroHash(Toy, COMMITTEE_DEPTH) && n == U64Chunk(513)
    ensures BitsFit(a) && AttFields(Toy, ZERO, a)[0] == HashPair(Toy, T, n) == SszBits(Toy, a)
  {
    ReadFits(a);
    SilentTrees(a, COMMITTEE_DEPTH);
  }

  lemma SilentBitsStrings(a: Attestation, T: Chunk, n: Chunk)
    requires Silent(a) && T == ZeroHash(Toy, COMMITTEE_DEPTH) && n == U64Chunk(513) && BitsFit(a)
    ensures BitsStrings(Toy, a) == {Join(T, n)}
  {
    ReadFits(a);
    SilentTrees(a, COMMITTEE_DEPTH);
  }

  lemma BitsCode(T: Chunk, n: Chunk)
    requires T == ZeroHash(Toy, 3) && n == U64Chunk(513)
    ensures HashPair(Toy, T, n)[0] == 16
  {
    ZeroCode(ZeroHash(Toy, 1), ZeroHash(Toy, 2), T);
    LengthChunk();
    ToyCode(T, n, 13, 1, 16);
  }

  lemma FieldsOf(H: HashFn, a: Attestation, Q: Chunk)
    requires Q == PadAfterBits(H, ZERO, a)
    ensures AttFields(H, ZERO, a)[1] == DataRoot(H, Q, a.data) && AttFields(H, ZERO, a)[2] == SignatureRoot(H, Q, a.signature)
  {
  }

  lemma SilentFields(a: Attestation, Q: Chunk)
    requires Silent(a) && Q == PadAfterBits(Toy, ZERO, a) && Q[0] == 4
    ensures AttFields(Toy, ZERO, a)[1][0] == 35 && AttFields(Toy, ZERO, a)[2][0] == 20
  {
    FieldsOf(Toy, a, Q);
    SilentData(a.data, Q, 10, 13, 35);
    SilentSignature(a.signature, Q, 9, 20);
  }

  lemma SilentDataReference(d: AttestationData)
    requires d == DATA
    ensures SszData(Toy, d)[0] == 19
  {
    DataIsSsz(Toy, d);
    SilentData(d, ZERO, 2, 5, 19);
  }

  lemma SilentSignatureReference(s: Bytes96)
    requires s == ZeroBytes(96)
    ensures SszSignature(Toy, s)[0] == 4
  {
    SignatureIsSsz(Toy, s);
    SilentSignature(s, ZERO, 1, 4);
  }

  // ----- no collision

  /** Strings whose digests have different first bytes do not collide. */
  lemma {:induction false} DistinctFree(ss: seq<seq<Byte>>, S: set<seq<Byte>>)
    requires forall x :: x in S ==> x in ss
    requires forall i, j :: 0 <= i < j < |ss| ==> Toy(ss[i])[0] != Toy(ss[j])[0]
    ensures CollisionFree(Toy, S)
  {
    forall x, y | x in S && y in S ensures !Collision(Toy, x, y) {
      var i :| 0 <= i < |ss| && ss[i] == x;
      var j :| 0 <= j < |ss| && ss[j] == y;
      assert i != j ==> Toy(ss[i])[0] != Toy(ss[j])[0];
    }
  }

  lemma SevenFreeStrings(ss: seq<seq<Byte>>, S: set<seq<Byte>>)
    requires |ss| == 7 && Toy(ss[0])[0] == 16 && Toy(ss[1])[0] == 87 && Toy(ss[2])[0] == 29 && Toy(ss[3])[0] == 146
    requires Toy(ss[4])[0] == 55 && Toy(ss[5])[0] == 5 && Toy(ss[6])[0] == 66
    requires S == {ss[0]} + {ss[1], ss[2], ss[3]} + {ss[4], ss[5], ss[6]}
    ensures CollisionFree(Toy, S)
  {
    DistinctFree(ss, S);
  }

  /** The strings of an attestation, given its fields. */
  lemma FieldStrings(f0: Chunk, f1: Chunk, f2: Chunk, Q: Chunk, g1: Chunk, g2: Chunk, T: Chunk, n: Chunk, S: set<seq<Byte>>)
    requires f0[0] == 16 && f1[0] == 35 && f2[0] == 20 && Q[0] == 4 && g1[0] == 19 && g2[0] == 4 && HashPair(Toy, T, n)[0] == 16
    requires S == {Join(T, n)} + FourStrings(Toy, f0, f1, f2, Q) + FourStrings(Toy, f0, g1, g2, ZERO)
    ensures CollisionFree(Toy, S)
  {
    ToyCode(f0, f1, 16, 35, 87);
    ToyCode(f2, Q, 20, 4, 29);
    FourCode(f0, f1, f2, Q, 87, 29, 146);
    ToyCode(f0, g1, 16, 19, 55);
    ToyCode(g2, ZERO, 4, 0, 5);
    FourCode(f0, g1, g2, ZERO, 55, 5, 66);
    SevenFreeStrings([Join(T, n), Join(f0, f1), Join(f2, Q), Join(HashPair(Toy, f0, f1), HashPair(Toy, f2, Q)),
                      Join(f0, g1), Join(g2, ZERO), Join(HashPair(Toy, f0, g1), HashPair(Toy, g2, ZERO))], S);
  }

  lemma StringsOf(H: HashFn, a: Attestation, f: seq<Chunk>, Q: Chunk)
    requires BitsFit(a) && f == AttFields(H, ZERO, a) && Q == PadAfterBits(H, ZERO, a)
    ensures AttStrings(H, a) == BitsStrings(H, a) + FourStrings(H, f[0], f[1], f[2], Q)
                                + FourStrings(H, SszBits(H, a), SszData(H, a.data), SszSignature(H, a.signature), ZERO)
  {
  }

  /** The hypotheses of LargeCommittee, met. */
  lemma LargeHypothesesAreMet(a: Attestation)
    requires Silent(a)
    ensures 512 < BitlistLen(BitBytes(a)) <= 768 && BitsFit(a) && AttFree(Toy, a)
  {
    var T, n, Q := ZeroHash(Toy, COMMITTEE_DEPTH), U64Chunk(513), PadAfterBits(Toy, ZERO, a);
    SilentBits(a, T, n);
    SilentBitsStrings(a, T, n);
    BitsCode(T, n);
    SilentRow(a);
    SilentFields(a, Q);
    SilentDataReference(a.data);
    SilentSignatureReference(a.signature);
    var f := AttFields(Toy, ZERO, a);
    StringsOf(Toy, a, f, Q);
    FieldStrings(f[0], f[1], f[2], Q, SszData(Toy, a.data), SszSignature(Toy, a.signature), T, n, AttStrings(Toy, a));
    ToyZeroFree(RowStrings(Toy, a));
  }

  /** So for this attestation and hash function htrAtt does not return the SSZ root. */
  lemma ToyCommittee(a: Attestation)
    requires a == Example513()
    ensures BitsFit(a) && AttRoot(Toy, ZERO, a) != SszAttestation(Toy, a)
  {
    ExampleIsSilent(a);
    LargeHypothesesAreMet(a);
    LargeCommittee(Toy, a);
  }
}
