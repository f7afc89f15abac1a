/** The list hashers of lib/merkleization.h on the roots of their elements: what they return for
    a list of any length, and that this is the padded tree whenever the list fits. */
module ListHasher {
  import opened Words
  import opened MerkleTree
  import opened Hex
  import opened Merkleization

  // ----- the pure image of the streaming code, for any number of leaves

  /** `tmp` after the leaf loop; size is the 8-bit argument of `merge`. */
  function Slots(H: HashFn, zh: seq<Chunk>, size: nat, depth: nat, leaves: seq<Chunk>, rows: nat): (r: seq<Chunk>)
    requires depth < rows && depth <= |zh| && |leaves| < Pow2(rows - 1)
    ensures |r| == rows
    decreases |leaves|
  {
    if leaves == [] then Zeros(rows)
    else
      var i := |leaves| - 1;
      var tmp := Slots(H, zh, size, depth, leaves[..i], rows);
      var (l, v) := Climb(H, zh, tmp, size, depth, i, 0, leaves[i]);
      tmp[l := v]
  }

  /** The tables suffice for n leaves under a limit of depth d. */
  predicate Suffice(zh: seq<Chunk>, n: nat, d: nat, rows: nat) {
    |zh| == 64 && d <= 8 && d < rows && CoverDepth(n) < rows && n < Pow2(rows - 1)
  }

  /** Row 0 and `tmp` after the padding branch. */
  function AfterPadding(H: HashFn, zh: seq<Chunk>, leaves: seq<Chunk>, d: nat, rows: nat): (r: (Chunk, seq<Chunk>))
    requires Suffice(zh, |leaves|, d, rows)
    ensures |r.1| == rows
  {
    var n, depth := |leaves|, CoverDepth(|leaves|);
    CoverDepthBound(n);
    var tmp := Slots(H, zh, n % 256, depth, leaves, rows);
    if Pow2(depth) == n then (zh[0], tmp)
    else var (l, v) := Climb(H, zh, tmp, n % 256, depth, n, 0, zh[0]); (v, tmp[l := v])
  }

  /** The extension loop from level j to level d. */
  function Rise(H: HashFn, zh: seq<Chunk>, h: Chunk, j: nat, d: nat): Chunk
    requires d <= |zh|
    decreases if j < d then d - j else 0
  {
    if j < d then Rise(H, zh, HashPair(H, h, zh[j]), j + 1, d) else h
  }

  function StreamRow(H: HashFn, zh: seq<Chunk>, leaves: seq<Chunk>, d: nat, rows: nat): Chunk
    requires Suffice(zh, |leaves|, d, rows)
  {
    AfterPadding(H, zh, leaves, d, rows).0
  }

  function StreamTree(H: HashFn, zh: seq<Chunk>, leaves: seq<Chunk>, d: nat, rows: nat): Chunk
    requires Suffice(zh, |leaves|, d, rows)
  {
    var (P, tmp) := AfterPadding(H, zh, leaves, d, rows);
    if CoverDepth(|leaves|) < d then Rise(H, zh[0 := P], tmp[CoverDepth(|leaves|)], CoverDepth(|leaves|), d) else tmp[d]
  }

  /** calloc reserves a pointer's size for each byte, and pointers have four bytes here. */
  function Rows(d: nat): nat { 4 * (d + 1) }

  lemma RowsSuffice(zh: seq<Chunk>, n: nat, d: nat)
    requires |zh| == 64 && d <= 8 && n < Pow2(Rows(d) - 1)
    ensures Suffice(zh, n, d, Rows(d))
  {
    var rows := Rows(d);
    CoverDepthCorrect(n);
    SmallPowers();
    if n <= 256 {
      if Log2Ceil(n) >= rows { Pow2Monotone(rows - 1, Log2Ceil(n) - 1); }
    } else if rows <= 9 {
      Pow2Monotone(rows - 1, 8);
    }
  }

  // ----- the code

  /** The leaf loop (lines 179-184). */
  method MergeLeaves(m: Merkleizer, leaves: seq<Chunk>, depth: nat, tmp: array<Chunk>)
    requires m.Valid() && tmp != m.zerohashes && depth < tmp.Length && depth <= 64 && |leaves| < Pow2(tmp.Length - 1)
    requires tmp[..] == Zeros(tmp.Length)
    modifies tmp
    ensures tmp[..] == Slots(m.H, m.zerohashes[..], |leaves| % 256, depth, leaves, tmp.Length)
  {
    ghost var zh := m.zerohashes[..];
    var hArr := new Chunk[1](_ => ZERO);
    assert leaves[..0] == [];
    for i := 0 to |leaves|
      invariant m.zerohashes[..] == zh && tmp[..] == Slots(m.H, zh, |leaves| % 256, depth, leaves[..i], tmp.Length)
    {
      hArr[0] := leaves[i];
      assert leaves[..i + 1][..i] == leaves[..i];
      var level := m.Merge(hArr, 0, tmp, |leaves| % 256, depth, i);
    }
    assert leaves[..|leaves|] == leaves;
  }

  /** The padding branch (lines 186-189). */
  method PadLeaves(m: Merkleizer, leaves: seq<Chunk>, depth: nat, tmp: array<Chunk>, ghost d: nat)
    requires m.Valid() && tmp != m.zerohashes && Suffice(m.zerohashes[..], |leaves|, d, tmp.Length) && depth == CoverDepth(|leaves|)
    requires depth <= 64 && tmp[..] == Slots(m.H, m.zerohashes[..], |leaves| % 256, depth, leaves, tmp.Length)
    modifies tmp, m.zerohashes
    ensures var (P, slots) := AfterPadding(m.H, old(m.zerohashes[..]), leaves, d, tmp.Length);
            tmp[..] == slots && m.zerohashes[..] == old(m.zerohashes[..])[0 := P]
  {
    if Pow2(depth) != |leaves| {
      var level := m.Merge(m.zerohashes, 0, tmp, |leaves| % 256, depth, |leaves|);
    }
  }

  /** The extension loop (lines 191-195). */
  method ExtendLeaves(m: Merkleizer, depth: nat, limitDepth: nat, tmp: array<Chunk>)
    requires tmp != m.zerohashes && m.zerohashes.Length == 64 && depth < tmp.Length && limitDepth < tmp.Length && limitDepth <= 8
    modifies tmp
    ensures tmp[limitDepth] == if depth < limitDepth then Rise(m.H, m.zerohashes[..], old(tmp[depth]), depth, limitDepth) else old(tmp[limitDepth])
  {
    var j := depth;
    while j < limitDepth
      invariant depth <= j && (depth < limitDepth ==> j <= limitDepth)
      invariant j < tmp.Length && m.zerohashes[..] == old(m.zerohashes[..])
      invariant depth >= limitDepth ==> tmp[limitDepth] == old(tmp[limitDepth])
      invariant Rise(m.H, m.zerohashes[..], tmp[j], j, limitDepth) == Rise(m.H, m.zerohashes[..], old(tmp[depth]), depth, limitDepth)
    {
      tmp[j + 1] := HashPair(m.H, tmp[j], m.zerohashes[j]);
      j := j + 1;
    }
  }

  /** The non-empty branch, up to the root at the limit depth. */
  method StreamRoot(m: Merkleizer, leaves: seq<Chunk>, limitDepth: nat) returns (root: Chunk)
    requires m.Valid() && Suffice(m.zerohashes[..], |leaves|, limitDepth, Rows(limitDepth))
    modifies m.zerohashes
    ensures m.zerohashes[..] == old(m.zerohashes[..])[0 := StreamRow(m.H, old(m.zerohashes[..]), leaves, limitDepth, Rows(limitDepth))]
    ensures root == StreamTree(m.H, old(m.zerohashes[..]), leaves, limitDepth, Rows(limitDepth))
  {
    CoverDepthBound(|leaves|);
    var depth := CoverDepth(|leaves|);
    var tmp := new Chunk[Rows(limitDepth)](_ => ZERO);
    assert tmp[..] == Zeros(Rows(limitDepth));
    MergeLeaves(m, leaves, depth, tmp);
    PadLeaves(m, leaves, depth, tmp, limitDepth);
    ExtendLeaves(m, depth, limitDepth, tmp);
    root := tmp[limitDepth];
  }

  /** A list hash: an empty list has its own branch; the second input otherwise is a constant. */
  function StreamResult(H: HashFn, zh: seq<Chunk>, leaves: seq<Chunk>, d: nat, mix: nat): Chunk
    requires Suffice(zh, |leaves|, d, Rows(d))
  {
    if leaves == [] then HashPair(H, zh[d], zh[0])
    else HashPair(H, StreamTree(H, zh, leaves, d, Rows(d)), U64Chunk(mix))
  }

  function RowAfter(H: HashFn, zh: seq<Chunk>, leaves: seq<Chunk>, d: nat): Chunk
    requires Suffice(zh, |leaves|, d, Rows(d))
  {
    if leaves == [] then zh[0] else StreamRow(H, zh, leaves, d, Rows(d))
  }

  /** htru64list, htrProposerSlashings and htrVoluntaryExits on the roots of their elements, whose
      hashing leaves row 0 alone; and the other list hashers where their elements happen to. `mix`
      is the constant each mixes in. */
  method HtrList(m: Merkleizer, leaves: seq<Chunk>, max: nat, mix: nat) returns (htr: Chunk)
    requires m.Valid() && mix < Pow256(8) && |leaves| < Pow2(Rows(CoverDepth(max)) - 1)
    modifies m.zerohashes
    ensures Suffice(old(m.zerohashes[..]), |leaves|, CoverDepth(max), Rows(CoverDepth(max)))
    ensures htr == StreamResult(m.H, old(m.zerohashes[..]), leaves, CoverDepth(max), mix)
    ensures m.zerohashes[..] == old(m.zerohashes[..])[0 := RowAfter(m.H, old(m.zerohashes[..]), leaves, CoverDepth(max))]
    ensures m.Valid()
  {
    ghost var zh := m.zerohashes[..];
    CoverDepthBound(max);
    RowsSuffice(m.zerohashes[..], |leaves|, CoverDepth(max));
    var limitDepth := CoverDepth(max);
    if |leaves| == 0 {
      htr := HashPair(m.H, m.zerohashes[limitDepth], m.zerohashes[0]);
    } else {
      var root := StreamRoot(m, leaves, limitDepth);
      var htrlimit := Htru64(mix);
      htr := HashPair(m.H, root, htrlimit);
    }
    Repadded(m.H, zh, zh[0], m.zerohashes[0]);
    assert m.zerohashes[..] == zh[0 := m.zerohashes[0]];
  }

  // ----- lists that fit

  lemma {:induction false} SlotsPending(H: HashFn, zh: seq<Chunk>, P: Chunk, leaves: seq<Chunk>, d: nat, rows: nat, k: nat)
    requires Table(H, zh, P) && 0 < |leaves| <= 256 && |leaves| <= Pow2(d) && Suffice(zh, |leaves|, d, rows) && k <= |leaves|
    requires Log2Ceil(|leaves|) < rows && Log2Ceil(|leaves|) <= 8
    ensures var tmp := Slots(H, zh, |leaves| % 256, Log2Ceil(|leaves|), leaves[..k], rows);
            Pending(H, tmp, Effective(leaves, P, d), k) && (k == 0 ==> tmp[0] == ZERO)
  {
    var n, c, xs := |leaves|, Log2Ceil(|leaves|), Effective(leaves, P, d);
    if k == 0 {
      NothingPending(H, Zeros(rows), xs);
    } else {
      SlotsPending(H, zh, P, leaves, d, rows, k - 1);
      assert leaves[..k][..k - 1] == leaves[..k - 1];
      Log2CeilBound(n);
      MergeEither(H, zh, Slots(H, zh, n % 256, c, leaves[..k - 1], rows), n, c, k - 1, leaves[k - 1], xs);
    }
  }

  lemma {:induction false} RiseIsNode(H: HashFn, zh: seq<Chunk>, P: Chunk, leaves: seq<Chunk>, d: nat, j: nat)
    requires |leaves| <= Pow2(d) && |leaves| <= 256 && d <= 8 && Log2Ceil(|leaves|) <= j <= d
    requires Table(H, zh, NextPad(H, P, leaves))
    ensures Rise(H, zh, Node(H, Effective(leaves, P, d), j, 0), j, d) == Node(H, Effective(leaves, P, d), d, 0)
    decreases d - j
  {
    if j < d {
      ExtensionRow(H, zh, P, leaves, d, j);
      RiseIsNode(H, zh, P, leaves, d, j + 1);
    }
  }

  /** Row 0 and the slot at the cover depth after the padding branch. */
  lemma PaddingCompletes(H: HashFn, zh: seq<Chunk>, P: Chunk, leaves: seq<Chunk>, d: nat, rows: nat)
    requires Table(H, zh, P) && 0 < |leaves| <= 256 && |leaves| <= Pow2(d) && Suffice(zh, |leaves|, d, rows)
    ensures CoverDepth(|leaves|) == Log2Ceil(|leaves|) < rows
    ensures var (Q, tmp) := AfterPadding(H, zh, leaves, d, rows);
            Q == NextPad(H, P, leaves) && tmp[Log2Ceil(|leaves|)] == Node(H, Effective(leaves, P, d), Log2Ceil(|leaves|), 0)
  {
    var n, c, xs := |leaves|, Log2Ceil(|leaves|), Effective(leaves, P, d);
    CoverDepthCorrect(n);
    SlotsPending(H, zh, P, leaves, d, rows, n);
    assert leaves[..n] == leaves;
    var tmp := Slots(H, zh, n % 256, c, leaves, rows);
    if Full(n) {
      FullTop(H, tmp, xs, n, c);
    } else {
      PadEffect(H, zh, P, tmp, leaves, d);
    }
  }

  /** On a list that fits, the streaming code computes the padded tree of the vector really
      hashed, for every content of row 0. */
  lemma FitsIsTree(H: HashFn, zh: seq<Chunk>, P: Chunk, leaves: seq<Chunk>, d: nat, rows: nat)
    requires Table(H, zh, P) && 0 < |leaves| <= 256 && |leaves| <= Pow2(d) && Suffice(zh, |leaves|, d, rows)
    ensures StreamTree(H, zh, leaves, d, rows) == TreeResult(H, P, leaves, d)
    ensures StreamRow(H, zh, leaves, d, rows) == NextPad(H, P, leaves)
  {
    var c, xs, Q := Log2Ceil(|leaves|), Effective(leaves, P, d), NextPad(H, P, leaves);
    PaddingCompletes(H, zh, P, leaves, d, rows);
    EffectiveFits(leaves, P, d);
    Repadded(H, zh, P, Q);
    RiseIsNode(H, zh[0 := Q], P, leaves, d, c);
    NodeIsPaddedRoot(H, xs, d);
  }

  /** A list that fits its limit has rows enough. */
  lemma FitsRows(n: nat, d: nat)
    requires n <= Pow2(d)
    ensures n < Pow2(Rows(d) - 1)
  {
    Pow2Monotone(d + 1, Rows(d) - 1);
  }

  lemma FitsIsList(H: HashFn, zh: seq<Chunk>, P: Chunk, leaves: seq<Chunk>, d: nat, mix: nat)
    requires Table(H, zh, P) && |leaves| <= 256 && |leaves| <= Pow2(d) && Suffice(zh, |leaves|, d, Rows(d))
    ensures StreamResult(H, zh, leaves, d, mix) == ListResult(H, P, leaves, d, mix)
    ensures RowAfter(H, zh, leaves, d) == NextPad(H, P, leaves)
  {
    if leaves != [] { FitsIsTree(H, zh, P, leaves, d, Rows(d)); }
  }
}
