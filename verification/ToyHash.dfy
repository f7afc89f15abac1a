/** A hash function that meets the hypotheses of the results that assume no collision among the
    strings hashed, and none that hashes to zero: they are not void. */
module ToyHash {
  import opened Words
  import opened MerkleTree
  import opened Hex
  import opened Merkleization
  import opened MerkleRuns
  import opened Containers

  /** The zero chunk with its first and last byte set. */
  function Tag(k: Byte): (r: Chunk)
    ensures r[0] == k && r[31] == 1
  {
    ZERO[0 := k][31 := 1]
  }

  function Mix(a: nat, b: nat): Byte { if a + 2 * b < 255 then a + 2 * b + 1 else 255 }

  function Toy(x: seq<Byte>): Chunk { if |x| == 64 then Tag(Mix(x[0], x[32])) else Tag(0) }

  lemma ToyPair(a: Chunk, b: Chunk, i: Byte, j: Byte, k: Byte)
    requires a[0] == i && b[0] == j && k == Mix(i, j)
    ensures HashPair(Toy, a, b) == Tag(k)
  {
    var x := Join(a, b);
    assert x[0] == x[..32][0] && x[32] == x[32..][0];
  }

  /** No string hashes to zero. */
  lemma ToyZeroFree(S: set<seq<Byte>>)
    ensures ZeroFree(Toy, S)
  {
    forall x | x in S ensures Toy(x) != ZERO {
      assert Toy(x)[31] == 1;
    }
  }

  lemma HashedFour(H: HashFn, xs: seq<Chunk>)
    requires |xs| == 4
    ensures |xs| == Pow2(2) && Hashed(H, xs, 2) == FourStrings(H, xs[0], xs[1], xs[2], xs[3])
  {
    SmallPowers();
    var l, r := xs[..2], xs[2..];
    RootOfTwo(H, xs[0], xs[1]);
    RootOfTwo(H, xs[2], xs[3]);
    assert l == [xs[0], xs[1]] && r == [xs[2], xs[3]];
    assert l[..1] == [xs[0]] && l[1..] == [xs[1]] && r[..1] == [xs[2]] && r[1..] == [xs[3]];
    assert Hashed(H, l, 1) == {Join(xs[0], xs[1])} && Hashed(H, r, 1) == {Join(xs[2], xs[3])};
  }

  function Leaves3(): seq<Chunk> { [Tag(1), Tag(2), Tag(3)] }

  function Example(): Call { ListCall(Leaves3(), 4, 16, 2) }

  /** The digests met when the three leaves are hashed with P in row 0. */
  lemma TreeOf(P: Chunk)
    ensures Pow2(2) == 4 && !Full(3) && Log2Ceil(3) == 2
    ensures TreeStrings(Toy, P, Leaves3(), 2) == FourStrings(Toy, Tag(1), Tag(2), Tag(3), P)
    ensures TreeResult(Toy, P, Leaves3(), 2) == HashPair(Toy, HashPair(Toy, Tag(1), Tag(2)), HashPair(Toy, Tag(3), P))
  {
    SmallDepths();
    var xs := Leaves3() + [P];
    assert Effective(Leaves3(), P, 2) == xs && ZeroPadded(xs, 2) == xs;
    HashedFour(Toy, xs);
    RootOfFour(Toy, xs);
  }

  lemma ReferenceTree()
    ensures Pow2(2) == 4
    ensures PaddedHashed(Toy, Leaves3(), 2) == FourStrings(Toy, Tag(1), Tag(2), Tag(3), ZERO)
    ensures PaddedRoot(Toy, Leaves3(), 2) == HashPair(Toy, HashPair(Toy, Tag(1), Tag(2)), HashPair(Toy, Tag(3), ZERO))
  {
    SmallPowers();
    var xs := Leaves3() + [ZERO];
    assert Zeros(1) == [ZERO] by { assert Zeros(0) == []; }
    assert ZeroPadded(Leaves3(), 2) == xs;
    HashedFour(Toy, xs);
    RootOfFour(Toy, xs);
  }

  lemma SixteenChunk()
    ensures U64Chunk(16)[0] == 16
  {
    assert LeBytes(16, 8)[0] == 16;
  }

  lemma Digests()
    ensures HashPair(Toy, Tag(1), Tag(2)) == Tag(6) && HashPair(Toy, Tag(3), ZERO) == Tag(4) && HashPair(Toy, Tag(6), Tag(4)) == Tag(15)
    ensures HashPair(Toy, Tag(3), Tag(15)) == Tag(34) && HashPair(Toy, Tag(6), Tag(34)) == Tag(75)
    ensures HashPair(Toy, Tag(75), U64Chunk(16)) == Tag(108) && HashPair(Toy, Tag(15), U64Chunk(16)) == Tag(48)
  {
    SixteenChunk();
    ToyPair(Tag(1), Tag(2), 1, 2, 6);
    ToyPair(Tag(3), ZERO, 3, 0, 4);
    ToyPair(Tag(6), Tag(4), 6, 4, 15);
    ToyPair(Tag(3), Tag(15), 3, 15, 34);
    ToyPair(Tag(6), Tag(34), 6, 34, 75);
    ToyPair(Tag(75), U64Chunk(16), 75, 16, 108);
    ToyPair(Tag(15), U64Chunk(16), 15, 16, 48);
  }

  /** The seven strings hashed by the second of two equal calls and by its reference. */
  ghost function Seven(): set<seq<Byte>> {
    {Join(Tag(1), Tag(2)), Join(Tag(3), ZERO), Join(Tag(6), Tag(4)), Join(Tag(3), Tag(15)), Join(Tag(6), Tag(34)),
     Join(Tag(75), U64Chunk(16)), Join(Tag(15), U64Chunk(16))}
  }

  /** The string behind each of their digests. */
  ghost function Behind(k: Byte): seq<Byte> {
    if k == 6 then Join(Tag(1), Tag(2)) else if k == 4 then Join(Tag(3), ZERO) else if k == 15 then Join(Tag(6), Tag(4))
    else if k == 34 then Join(Tag(3), Tag(15)) else if k == 75 then Join(Tag(6), Tag(34))
    else if k == 108 then Join(Tag(75), U64Chunk(16)) else Join(Tag(15), U64Chunk(16))
  }

  lemma Recovered(x: seq<Byte>)
    requires x in Seven()
    ensures x == Behind(Toy(x)[0])
  {
    Digests();
    if x == Join(Tag(1), Tag(2)) { assert Toy(x) == Tag(6); }
    else if x == Join(Tag(3), ZERO) { assert Toy(x) == Tag(4); }
    else if x == Join(Tag(6), Tag(4)) { assert Toy(x) == Tag(15); }
    else if x == Join(Tag(3), Tag(15)) { assert Toy(x) == Tag(34); }
    else if x == Join(Tag(6), Tag(34)) { assert Toy(x) == Tag(75); }
    else if x == Join(Tag(75), U64Chunk(16)) { assert Toy(x) == Tag(108); }
    else { assert Toy(x) == Tag(48); }
  }

  lemma SevenFree()
    ensures CollisionFree(Toy, Seven())
  {
    forall x, y | x in Seven() && y in Seven() ensures !Collision(Toy, x, y) {
      Recovered(x);
      Recovered(y);
    }
  }

  lemma ExampleAdmissible()
    ensures Admissible(Example())
  {
    SmallPowers();
    SmallPow256(16);
  }

  lemma SecondCallStrings()
    ensures Admissible(Example()) && ResultStrings(Toy, Tag(15), Example()) <= Seven()
  {
    ExampleAdmissible();
    Digests();
    TreeOf(Tag(15));
  }

  lemma SecondReferenceStrings()
    ensures Admissible(Example()) && ReferenceStrings(Toy, Example()) <= Seven()
  {
    ExampleAdmissible();
    Digests();
    ReferenceTree();
  }

  lemma FirstCallRow()
    ensures NextPad(Toy, ZERO, Leaves3()) == Tag(15)
  {
    Digests();
    TreeOf(ZERO);
  }

  lemma SubsetFree(A: set<seq<Byte>>, B: set<seq<Byte>>)
    requires A <= Seven() && B <= Seven()
    ensures CollisionFree(Toy, A + B)
  {
    SevenFree();
    FreeSubset(Toy, Seven(), A + B);
  }

  lemma RowAfterFirst(H: HashFn, calls: seq<Call>)
    requires AllAdmissible(calls) && calls != []
    ensures PadAfter(H, calls, 1) == NextPad(H, ZERO, Leaves(calls[0]))
  {
    assert PadAfter(H, calls, 0) == ZERO;
  }

  /** The hypotheses of SecondCallDiffers about collisions, met; ToyZeroFree meets the other. */
  lemma HypothesesAreMet(calls: seq<Call>)
    requires calls == [Example(), Example()]
    ensures AllAdmissible(calls) && Admissible(Example())
    ensures CollisionFree(Toy, ResultStrings(Toy, PadAfter(Toy, calls, 1), Example()) + ReferenceStrings(Toy, Example()))
  {
    ExampleAdmissible();
    RowAfterFirst(Toy, calls);
    FirstCallRow();
    SecondCallStrings();
    SecondReferenceStrings();
    SubsetFree(ResultStrings(Toy, Tag(15), Example()), ReferenceStrings(Toy, Example()));
  }

  /** So with this hash function the same three leaves, hashed twice, give a wrong second root. */
  lemma ToySecondCall(calls: seq<Call>)
    requires calls == [Example(), Example()]
    ensures AllAdmissible(calls) && ResultAt(Toy, calls, 0) == Reference(Toy, calls[0])
    ensures ResultAt(Toy, calls, 1) != Reference(Toy, calls[1])
  {
    HypothesesAreMet(calls);
    SmallPow256(16);
    ToyZeroFree(PadStrings(Toy, ZERO, Leaves3()));
    SecondCallDiffers(Toy, Leaves3(), 16);
  }
}
