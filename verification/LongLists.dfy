/** Lists of more than 256 leaves. The 8-bit size makes `merge` take an early leaf for the padding
    call, and the cover depth counts only what exceeds a multiple of 256: the code hashes one
    subtree, often a stale one, and forgets the rest. */
module LongLists {
  import opened Words
  import opened MerkleTree
  import opened Merkleization
  import opened ListHasher

  // ----- bits of an index

  /** The number of ones at the low end of s. */
  function Ones(s: nat): nat { if s % 2 == 1 then 1 + Ones(s / 2) else 0 }

  lemma {:induction false} ShrHalf(s: nat, j: nat)
    ensures Shr(s, j + 1) == Shr(s / 2, j)
  {
    if j > 0 { ShrHalf(s, j - 1); }
  }

  lemma {:induction false} OnesAreLow(s: nat)
    ensures LowOnes(s, Ones(s)) && !Bit(s, Ones(s))
  {
    if s % 2 == 1 {
      OnesAreLow(s / 2);
      ShrHalf(s, Ones(s / 2));
      forall t | 0 <= t < Ones(s) ensures Bit(s, t) {
        if t > 0 {
          ShrHalf(s, t - 1);
          assert Bit(s / 2, t - 1);
        }
      }
    }
  }

  lemma OnesUnique(s: nat, k: nat, l: nat)
    requires LowOnes(s, k) && !Bit(s, k) && LowOnes(s, l) && !Bit(s, l)
    ensures k == l
  {
  }

  lemma OddStep(x: nat, p: nat)
    ensures (2 * x + 1) * p + p - 1 == x * (2 * p) + 2 * p - 1
  {
  }

  /** A number that ends in t ones. */
  lemma {:induction false} OnesValue(s: nat, t: nat)
    requires LowOnes(s, t)
    ensures s == Shr(s, t) * Pow2(t) + Pow2(t) - 1
  {
    if t > 0 {
      OnesValue(s, t - 1);
      assert Bit(s, t - 1);
      OddStep(Shr(s, t), Pow2(t - 1));
    }
  }

  lemma {:induction false} AllOnes(c: nat)
    ensures Ones(Pow2(c) - 1) == c && Shr(Pow2(c) - 1, c) == 0
  {
    ShrSmall(Pow2(c) - 1, c);
    if c > 0 {
      AllOnes(c - 1);
      assert (Pow2(c) - 1) / 2 == Pow2(c - 1) - 1;
    }
  }

  /** Cutting off more bits leaves a smaller number. */
  lemma {:induction false} ShrFloor(s: nat, t: nat, j: nat)
    requires t <= j
    ensures Shr(s, j) * Pow2(j) <= Shr(s, t) * Pow2(t)
  {
    if t < j {
      ShrFloor(s, t, j - 1);
      Halve(Shr(s, j - 1), Pow2(j - 1));
    }
  }

  lemma HalfSum(a: nat, b: nat)
    ensures (a + 2 * b) / 2 == a / 2 + b && (a + 2 * b) % 2 == a % 2
  {
  }

  /** The eight low bits of 256 q + m are those of m. */
  lemma {:induction false} ShrBlock(q: nat, m: nat, j: nat)
    requires j <= 8
    ensures Shr(256 * q + m, j) == Shr(m, j) + q * Pow2(8 - j)
    ensures j < 8 ==> (Bit(256 * q + m, j) <==> Bit(m, j))
  {
    if j == 0 {
      SmallPowers();
    } else {
      ShrBlock(q, m, j - 1);
      TwiceProduct(q, Pow2(8 - j));
      HalfSum(Shr(m, j - 1), q * Pow2(8 - j));
    }
    if j < 8 {
      TwiceProduct(q, Pow2(7 - j));
      HalfSum(Shr(m, j), q * Pow2(7 - j));
    }
  }

  // ----- nodes and slices

  lemma {:induction false} FirstLeafIs(j: nat, k: nat)
    ensures FirstLeaf(j, k) == k * Pow2(j)
  {
    if j > 0 {
      FirstLeafIs(j - 1, 2 * k);
      SplitSlice(k, Pow2(j - 1));
    }
  }

  /** A node over existing leaves is the root of their own tree. */
  lemma NodeOfSlice(H: HashFn, xs: seq<Chunk>, j: nat, k: nat, lo: nat, ys: seq<Chunk>)
    requires lo == k * Pow2(j) && lo + Pow2(j) <= |xs| && ys == xs[lo..lo + Pow2(j)]
    ensures Node(H, xs, j, k) == Node(H, ys, j, 0)
  {
    FirstLeafIs(j, k);
    NodeIsSliceRoot(H, xs, j, k, lo, lo + Pow2(j));
    FirstLeafIs(j, 0);
    NodeIsSliceRoot(H, ys, j, 0, 0, Pow2(j));
    assert ys[0..Pow2(j)] == ys;
  }

  /** A node depends only on the leaves below it. */
  lemma {:induction false} NodePrefix(H: HashFn, xs: seq<Chunk>, ys: seq<Chunk>, j: nat, k: nat, hi: nat)
    requires (k + 1) * Pow2(j) <= hi && forall i: nat :: i < hi ==> Leaf(xs, i) == Leaf(ys, i)
    ensures Node(H, xs, j, k) == Node(H, ys, j, k)
    decreases j
  {
    if j > 0 {
      var p := Pow2(j - 1);
      SplitSlice(k + 1, p);
      MulMonotone(2 * k + 1, 2 * k + 2, p);
      NodePrefix(H, xs, ys, j - 1, 2 * k, hi);
      NodePrefix(H, xs, ys, j - 1, 2 * k + 1, hi);
    }
  }

  // ----- what the slots hold

  /** How often a subtree has been stored at level j after k leaves. */
  function Stores(k: nat, j: nat): nat { (Shr(k, j) + 1) / 2 }

  /** The slot at level c holds the last subtree stored there, in use or not. */
  ghost predicate Stored(H: HashFn, tmp: seq<Chunk>, xs: seq<Chunk>, k: nat, c: nat)
    requires c < |tmp|
  {
    Stores(k, c) >= 1 ==> tmp[c] == Node(H, xs, c, 2 * (Stores(k, c) - 1))
  }

  /** A leaf that is not taken for the padding call climbs through the ones of its index. */
  lemma {:induction false} ClimbOnes(H: HashFn, zh: seq<Chunk>, tmp: seq<Chunk>, size: nat, depth: nat, i: nat, j: nat, h: Chunk, xs: seq<Chunk>)
    requires Reaches(|tmp|, depth, i) && j < |tmp| && depth <= |zh| && (i < Pow2(depth) ==> j <= depth)
    requires (i != size || LowOnes(i, depth)) && Pending(H, tmp, xs, i) && LowOnes(i, j) && h == Node(H, xs, j, Shr(i, j))
    ensures var (l, v) := Climb(H, zh, tmp, size, depth, i, j, h);
            LowOnes(i, l) && !Bit(i, l) && v == Node(H, xs, l, Shr(i, l))
    decreases |tmp| - j
  {
    ShrSmall(i, if i < Pow2(depth) then depth else |tmp| - 1);
    NodeStep(H, xs, i, j);
    if Bit(i, j) {
      ClimbOnes(H, zh, tmp, size, depth, i, j + 1, HashPair(H, tmp[j], h), xs);
    }
  }

  lemma PendingNext(H: HashFn, tmp: seq<Chunk>, xs: seq<Chunk>, i: nat, l: nat, v: Chunk, j: nat)
    requires LowOnes(i, l) && !Bit(i, l) && l < |tmp| && Pending(H, tmp, xs, i) && v == Node(H, xs, l, Shr(i, l))
    requires j < |tmp| && Bit(i + 1, j)
    ensures tmp[l := v][j] == Node(H, xs, j, Shr(i + 1, j) - 1)
  {
    Increment(i, l, j);
  }

  lemma StoredNext(H: HashFn, tmp: seq<Chunk>, xs: seq<Chunk>, i: nat, l: nat, v: Chunk, c: nat)
    requires LowOnes(i, l) && !Bit(i, l) && l < |tmp| && v == Node(H, xs, l, Shr(i, l)) && c < |tmp| && Stored(H, tmp, xs, i, c)
    ensures Stored(H, tmp[l := v], xs, i + 1, c)
  {
    Increment(i, l, c);
    if c < l { assert Bit(i, c); }
  }

  lemma AllPendingNext(H: HashFn, tmp: seq<Chunk>, xs: seq<Chunk>, i: nat, l: nat, v: Chunk)
    requires LowOnes(i, l) && !Bit(i, l) && l < |tmp| && Pending(H, tmp, xs, i) && v == Node(H, xs, l, Shr(i, l))
    ensures Pending(H, tmp[l := v], xs, i + 1)
  {
    var now, i' := tmp[l := v], i + 1;
    forall j | 0 <= j < |now| && Bit(i', j) ensures now[j] == Node(H, xs, j, Shr(i', j) - 1) {
      PendingNext(H, tmp, xs, i, l, v, j);
    }
  }

  lemma MergeNext(H: HashFn, zh: seq<Chunk>, tmp: seq<Chunk>, size: nat, depth: nat, i: nat, xs: seq<Chunk>, c: nat)
    requires Reaches(|tmp|, depth, i) && depth <= |zh| && (i != size || LowOnes(i, depth)) && i < |xs| && c < |tmp|
    requires Pending(H, tmp, xs, i) && Stored(H, tmp, xs, i, c)
    ensures var (l, v) := Climb(H, zh, tmp, size, depth, i, 0, xs[i]);
            Pending(H, tmp[l := v], xs, i + 1) && Stored(H, tmp[l := v], xs, i + 1, c)
  {
    ClimbOnes(H, zh, tmp, size, depth, i, 0, xs[i], xs);
    var (l, v) := Climb(H, zh, tmp, size, depth, i, 0, xs[i]);
    AllPendingNext(H, tmp, xs, i, l, v);
    StoredNext(H, tmp, xs, i, l, v, c);
  }

  /** The slots tell of xs after k leaves. */
  ghost predicate Tells(H: HashFn, zh: seq<Chunk>, size: nat, depth: nat, leaves: seq<Chunk>, rows: nat, xs: seq<Chunk>, k: nat, c: nat)
    requires depth < rows && depth <= |zh| && |leaves| < Pow2(rows - 1) && k <= |leaves| && c < rows
  {
    var tmp := Slots(H, zh, size, depth, leaves[..k], rows);
    Pending(H, tmp, xs, k) && Stored(H, tmp, xs, k, c)
  }

  /** They go on doing so while no leaf is taken for the padding call. */
  lemma {:induction false} TellsOn(H: HashFn, zh: seq<Chunk>, size: nat, depth: nat, leaves: seq<Chunk>, rows: nat, xs: seq<Chunk>, lo: nat, k: nat, c: nat)
    requires depth < rows && depth <= |zh| && |leaves| < Pow2(rows - 1) && lo <= k <= |leaves| == |xs| && c < rows
    requires Tells(H, zh, size, depth, leaves, rows, xs, lo, c)
    requires forall i :: lo <= i < k ==> xs[i] == leaves[i]
    requires size < lo || size >= k || LowOnes(size, depth)
    ensures Tells(H, zh, size, depth, leaves, rows, xs, k, c)
    decreases k
  {
    if lo < k {
      TellsOn(H, zh, size, depth, leaves, rows, xs, lo, k - 1, c);
      assert leaves[..k][..k - 1] == leaves[..k - 1];
      MergeNext(H, zh, Slots(H, zh, size, depth, leaves[..k - 1], rows), size, depth, k - 1, xs, c);
    }
  }

  lemma TellsFirst(H: HashFn, zh: seq<Chunk>, size: nat, depth: nat, leaves: seq<Chunk>, rows: nat, xs: seq<Chunk>, c: nat)
    requires depth < rows && depth <= |zh| && |leaves| < Pow2(rows - 1) && c < rows
    ensures Tells(H, zh, size, depth, leaves, rows, xs, 0, c)
  {
    assert leaves[..0] == [];
    NothingPending(H, Zeros(rows), xs);
    ShrStays(0, c);
  }

  // ----- the leaf taken for the padding call

  /** The leaves as the later merges see them: leaf s, taken for the padding call, and the leaves
      it was to be joined with are lost, and the subtree stored before in that slot stands in for
      them; for leaf 0 that slot is still zero. A leaf whose index is all ones is not affected. */
  function Seen(leaves: seq<Chunk>, s: nat): (r: seq<Chunk>)
    requires s < |leaves|
    ensures |r| == |leaves|
  {
    var t := Ones(s);
    var w := Pow2(t);
    if s == 0 then leaves[0 := ZERO]
    else if Shr(s, t) == 0 then leaves
    else
      LostRange(s);
      var a := Shr(s, t) * w;
      leaves[..a] + leaves[a - 2 * w..a - w] + leaves[a + w..]
  }

  lemma LostRange(s: nat)
    ensures var t := Ones(s); Shr(s, t) * Pow2(t) + Pow2(t) == s + 1
    ensures var t := Ones(s); Shr(s, t) > 0 ==> Shr(s, t) >= 2 && 2 * Pow2(t) <= Shr(s, t) * Pow2(t)
  {
    var t := Ones(s);
    OnesAreLow(s);
    OnesValue(s, t);
    if Shr(s, t) > 0 { MulMonotone(2, Shr(s, t), Pow2(t)); }
  }

  lemma SeenAgrees(leaves: seq<Chunk>, s: nat, i: nat)
    requires s < |leaves| && i < |leaves| && (s == 0 ==> i > 0)
    requires i < Shr(s, Ones(s)) * Pow2(Ones(s)) || s < i
    ensures Seen(leaves, s)[i] == leaves[i]
  {
    LostRange(s);
  }

  lemma SeenCopies(leaves: seq<Chunk>, s: nat, a: nat, w: nat)
    requires 0 < s < |leaves| && Shr(s, Ones(s)) > 0 && w == Pow2(Ones(s)) && a == Shr(s, Ones(s)) * w
    ensures 2 * w <= a && a + w <= |leaves| && Seen(leaves, s)[a..a + w] == leaves[a - 2 * w..a - w]
  {
    LostRange(s);
  }

  lemma TwoLess(k: nat, w: nat)
    requires k >= 2
    ensures (k - 2) * w == k * w - 2 * w && (k - 2) * w + w == k * w - w
  {
  }

  /** The stale subtree stands in for the one that was lost. */
  lemma StaleForLost(H: HashFn, leaves: seq<Chunk>, xs: seq<Chunk>, t: nat, k: nat, a: nat, w: nat)
    requires k >= 2 && w == Pow2(t) && a == k * w && 2 * w <= a && a + w <= |xs| == |leaves|
    requires xs[a..a + w] == leaves[a - 2 * w..a - w]
    ensures Node(H, xs, t, k) == Node(H, leaves, t, k - 2)
  {
    TwoLess(k, w);
    var ys := leaves[a - 2 * w..a - w];
    NodeOfSlice(H, leaves, t, k - 2, a - 2 * w, ys);
    NodeOfSlice(H, xs, t, k, a, ys);
  }

  /** xs is what is left of the leaves when leaf s, whose index ends in t ones, is lost. */
  ghost predicate Lost(H: HashFn, leaves: seq<Chunk>, xs: seq<Chunk>, s: nat, t: nat) {
    && LowOnes(s, t) && !Bit(s, t) && Shr(s, t) >= 2
    && Node(H, xs, t, Shr(s, t)) == Node(H, leaves, t, Shr(s, t) - 2)
    && forall i: nat :: i < Shr(s, t) * Pow2(t) ==> Leaf(xs, i) == Leaf(leaves, i)
  }

  lemma SeenIsLost(H: HashFn, leaves: seq<Chunk>, s: nat)
    requires 0 < s < |leaves| && Shr(s, Ones(s)) > 0
    ensures Lost(H, leaves, Seen(leaves, s), s, Ones(s))
  {
    var t, xs := Ones(s), Seen(leaves, s);
    var w, a := Pow2(t), Shr(s, t) * Pow2(t);
    OnesAreLow(s);
    LostRange(s);
    SeenCopies(leaves, s, a, w);
    StaleForLost(H, leaves, xs, t, Shr(s, t), a, w);
    forall i: nat | i < a ensures Leaf(xs, i) == Leaf(leaves, i) { SeenAgrees(leaves, s, i); }
  }

  /** The leaf taken for the padding call climbs past the cover depth. */
  lemma {:induction false} ClimbPast(H: HashFn, zh: seq<Chunk>, tmp: seq<Chunk>, depth: nat, i: nat, j: nat, h: Chunk)
    requires Reaches(|tmp|, depth, i) && j < |tmp| && depth <= |zh| && (i < Pow2(depth) ==> j <= depth)
    ensures var (l, v) := Climb(H, zh, tmp, i, depth, i, j, h); l >= depth && !Bit(i, l)
    decreases |tmp| - j
  {
    ShrSmall(i, if i < Pow2(depth) then depth else |tmp| - 1);
    if Bit(i, j) {
      ClimbPast(H, zh, tmp, depth, i, j + 1, HashPair(H, tmp[j], h));
    } else if j < depth {
      ClimbPast(H, zh, tmp, depth, i, j + 1, HashPair(H, h, zh[j]));
    }
  }

  /** After it, the slots tell of what is left. */
  lemma LostSlot(H: HashFn, tmp: seq<Chunk>, leaves: seq<Chunk>, xs: seq<Chunk>, s: nat, t: nat, l: nat, v: Chunk, j: nat)
    requires Lost(H, leaves, xs, s, t) && t < l < |tmp| && !Bit(s, l)
    requires Pending(H, tmp, leaves, s) && Stored(H, tmp, leaves, s, t) && j < |tmp| && Bit(s + 1, j)
    ensures tmp[l := v][j] == Node(H, xs, j, Shr(s + 1, j) - 1)
  {
    Increment(s, t, j);
    if j == t {
      assert 2 * (Stores(s, t) - 1) == Shr(s, t) - 2;
    } else {
      assert Bit(s, j) && j != l;
      ShrFloor(s, t, j);
      NodePrefix(H, xs, leaves, j, Shr(s, j) - 1, Shr(s, t) * Pow2(t));
    }
  }

  lemma LostStored(H: HashFn, tmp: seq<Chunk>, leaves: seq<Chunk>, xs: seq<Chunk>, s: nat, t: nat, c: nat, l: nat, v: Chunk)
    requires Lost(H, leaves, xs, s, t) && t < c <= l < |tmp| && !Bit(s, l) && s <= Pow2(c) && Pending(H, tmp, leaves, s)
    ensures Stored(H, tmp[l := v], xs, s + 1, c)
  {
    Increment(s, t, c);
    if s < Pow2(c) {
      ShrSmall(s, c);
    } else {
      ShrPow2(c, c);
      assert Bit(s, c) && Shr(s, c) == 1;
      ShrFloor(s, t, c);
      NodePrefix(H, xs, leaves, c, 0, Shr(s, t) * Pow2(t));
    }
  }

  lemma LostPending(H: HashFn, tmp: seq<Chunk>, leaves: seq<Chunk>, xs: seq<Chunk>, s: nat, t: nat, l: nat, v: Chunk)
    requires Lost(H, leaves, xs, s, t) && t < l < |tmp| && !Bit(s, l)
    requires Pending(H, tmp, leaves, s) && Stored(H, tmp, leaves, s, t)
    ensures Pending(H, tmp[l := v], xs, s + 1)
  {
    var now, s' := tmp[l := v], s + 1;
    forall j | 0 <= j < |now| && Bit(s', j) ensures now[j] == Node(H, xs, j, Shr(s', j) - 1) {
      LostSlot(H, tmp, leaves, xs, s, t, l, v, j);
    }
  }

  lemma LostLeaf(H: HashFn, zh: seq<Chunk>, tmp: seq<Chunk>, c: nat, leaves: seq<Chunk>, xs: seq<Chunk>, s: nat, t: nat)
    requires Reaches(|tmp|, c, s) && c <= |zh| && s < |leaves| && s <= Pow2(c) && t < c && Lost(H, leaves, xs, s, t)
    requires Pending(H, tmp, leaves, s) && Stored(H, tmp, leaves, s, t)
    ensures var (l, v) := Climb(H, zh, tmp, s, c, s, 0, leaves[s]);
            Pending(H, tmp[l := v], xs, s + 1) && Stored(H, tmp[l := v], xs, s + 1, c)
  {
    ClimbPast(H, zh, tmp, c, s, 0, leaves[s]);
    var (l, v) := Climb(H, zh, tmp, s, c, s, 0, leaves[s]);
    LostPending(H, tmp, leaves, xs, s, t, l, v);
    LostStored(H, tmp, leaves, xs, s, t, c, l, v);
  }

  lemma LostFirst(H: HashFn, zh: seq<Chunk>, tmp: seq<Chunk>, c: nat, h: Chunk, xs: seq<Chunk>)
    requires 0 < c < |tmp| && c <= |zh| && tmp[0] == Leaf(xs, 0)
    ensures Reaches(|tmp|, c, 0)
    ensures var (l, v) := Climb(H, zh, tmp, 0, c, 0, 0, h);
            Pending(H, tmp[l := v], xs, 1) && Stored(H, tmp[l := v], xs, 1, c)
  {
    ClimbPast(H, zh, tmp, c, 0, 0, h);
    var (l, v) := Climb(H, zh, tmp, 0, c, 0, 0, h);
    var now, one := tmp[l := v], 1;
    forall j | 0 <= j < |now| && Bit(one, j) ensures now[j] == Node(H, xs, j, Shr(one, j) - 1) {
      ShrStays(1, j);
    }
    ShrStays(1, c);
  }

  /** The leaf s taken for the padding call under cover depth c spoils the slots. */
  ghost predicate Spoils(s: nat, c: nat) {
    0 < s <= Pow2(c) && s + 1 != Pow2(c) && Shr(s, Ones(s)) > 0 && Ones(s) < c
  }

  // ----- the slots at the end

  /** How s = n % 256 and c = CoverDepth(n) are related for n > 256. */
  ghost predicate Related(s: nat, c: nat) { (s == 0 && c > 0) || s + 1 == Pow2(c) || Spoils(s, c) }

  lemma TellsPastFirst(H: HashFn, zh: seq<Chunk>, c: nat, leaves: seq<Chunk>, rows: nat)
    requires 0 < c < rows && c <= |zh| && 0 < |leaves| < Pow2(rows - 1)
    ensures Tells(H, zh, 0, c, leaves, rows, Seen(leaves, 0), 1, c)
  {
    assert leaves[..1][..0] == [];
    LostFirst(H, zh, Zeros(rows), c, leaves[0], Seen(leaves, 0));
  }

  lemma TellsUpTo(H: HashFn, zh: seq<Chunk>, s: nat, c: nat, leaves: seq<Chunk>, rows: nat, t: nat)
    requires c < rows && c <= |zh| && s < |leaves| < Pow2(rows - 1) && t < rows
    ensures Tells(H, zh, s, c, leaves, rows, leaves, s, t)
  {
    TellsFirst(H, zh, s, c, leaves, rows, leaves, t);
    TellsOn(H, zh, s, c, leaves, rows, leaves, 0, s, t);
  }

  /** Leaf s taken for the padding call. */
  lemma TellsPast(H: HashFn, zh: seq<Chunk>, s: nat, c: nat, leaves: seq<Chunk>, rows: nat, xs: seq<Chunk>, t: nat)
    requires 0 < c < rows && c <= |zh| && s < |leaves| < Pow2(rows - 1) && s <= Pow2(c) && t < c && Lost(H, leaves, xs, s, t)
    ensures Tells(H, zh, s, c, leaves, rows, xs, s + 1, c)
  {
    TellsUpTo(H, zh, s, c, leaves, rows, t);
    assert leaves[..s + 1][..s] == leaves[..s];
    LostLeaf(H, zh, Slots(H, zh, s, c, leaves[..s], rows), c, leaves, xs, s, t);
  }

  lemma TellsAll(H: HashFn, zh: seq<Chunk>, s: nat, c: nat, leaves: seq<Chunk>, rows: nat)
    requires 0 < c < rows && c <= |zh| && s < |leaves| < Pow2(rows - 1) && Related(s, c)
    ensures Tells(H, zh, s, c, leaves, rows, Seen(leaves, s), |leaves|, c)
  {
    var n, xs := |leaves|, Seen(leaves, s);
    if s > 0 && s + 1 == Pow2(c) {
      AllOnes(c);
      OnesAreLow(s);
      TellsFirst(H, zh, s, c, leaves, rows, leaves, c);
      TellsOn(H, zh, s, c, leaves, rows, leaves, 0, n, c);
    } else {
      if s == 0 {
        TellsPastFirst(H, zh, c, leaves, rows);
      } else {
        SeenIsLost(H, leaves, s);
        TellsPast(H, zh, s, c, leaves, rows, xs, Ones(s));
      }
      forall i | s + 1 <= i < n ensures xs[i] == leaves[i] { SeenAgrees(leaves, s, i); }
      TellsOn(H, zh, s, c, leaves, rows, xs, s + 1, n, c);
    }
  }

  // ----- numbers of leaves beyond 256

  lemma BlockRemainder(q: nat, r: nat)
    requires r < 256
    ensures (256 * q + r) % 256 == r
  {
  }

  lemma SameDepth(v: nat, w: nat)
    requires v > 1 && w > 1 && (v - 1) % 256 == (w - 1) % 256
    ensures CoverDepth(v) == CoverDepth(w)
  {
  }

  /** The cover depth of 256 q + m is that of m. */
  lemma BlockDepth(q: nat, m: nat)
    requires q > 0 && 1 < m <= 256
    ensures CoverDepth(256 * q + m) == CoverDepth(m)
  {
    var r := m - 1;
    BlockRemainder(q, r);
    BlockRemainder(0, r);
    SameDepth(256 * q + m, m);
  }

  lemma DepthOfOne(v: nat)
    requires v > 1 && (v - 1) % 256 == 0
    ensures CoverDepth(v) == 1
  {
  }

  lemma DepthOf256()
    ensures CoverDepth(256) == 8
  {
    SmallPowers();
    CoverDepthCorrect(256);
    LeastCoverUnique(256, 8, Log2Ceil(256));
  }

  lemma FirstDepths(q: nat)
    requires q > 0
    ensures CoverDepth(256 * q + 1) == 1 && CoverDepth(256 * q + 256) == 8
  {
    BlockRemainder(q, 0);
    DepthOfOne(256 * q + 1);
    DepthOf256();
    BlockDepth(q, 256);
  }

  lemma OnlyOnes(s: nat, c: nat)
    requires s >= 2 && c > 0 && LeastCover(s, c) && Shr(s, Ones(s)) == 0
    ensures s + 1 == Pow2(c)
  {
    LostRange(s);
    LeastCoverUnique(s, c, Ones(s));
  }

  lemma FewOnes(s: nat, c: nat)
    requires s <= Pow2(c) && Shr(s, Ones(s)) > 0
    ensures Ones(s) < c
  {
    LostRange(s);
    if Ones(s) >= c { Pow2Monotone(c, Ones(s)); }
  }

  lemma SpoilsOrOnes(s: nat, c: nat)
    requires s >= 2 && c > 0 && LeastCover(s, c)
    ensures s + 1 == Pow2(c) || Spoils(s, c)
  {
    if Shr(s, Ones(s)) == 0 {
      OnlyOnes(s, c);
    } else {
      FewOnes(s, c);
    }
  }

  lemma IndexRelated(n: nat, s: nat)
    requires n > 256 && s == n % 256
    ensures 0 < CoverDepth(n) <= 8 && Related(s, CoverDepth(n))
  {
    var q := n / 256;
    assert n == 256 * q + s;
    SmallPowers();
    CoverDepthBound(n);
    if s == 0 {
      FirstDepths(q - 1);
    } else if s == 1 {
      FirstDepths(q);
    } else {
      BlockDepth(q, s);
      CoverDepthCovers(s);
      SpoilsOrOnes(s, CoverDepth(n));
    }
  }

  // ----- what is hashed

  lemma {:induction false} RiseOverZeros(H: HashFn, zh: seq<Chunk>, P: Chunk, ys: seq<Chunk>, j: nat, d: nat)
    requires Table(H, zh, P) && 0 < j <= d <= 8 && |ys| <= Pow2(j)
    ensures Rise(H, zh, Node(H, ys, j, 0), j, d) == Node(H, ys, d, 0)
    decreases d - j
  {
    if j < d {
      NodeBeyond(H, ys, j, 1);
      RiseOverZeros(H, zh, P, ys, j + 1, d);
    }
  }

  /** What the extension makes of the slot at the cover depth. */
  lemma Extends(H: HashFn, zh: seq<Chunk>, Q: Chunk, ys: seq<Chunk>, c: nat, d: nat, leaves: seq<Chunk>, rows: nat)
    requires Suffice(zh, |leaves|, d, rows) && CoverDepth(|leaves|) == c && 0 < c <= d && |ys| <= Pow2(c) && Table(H, zh[0 := Q], Q)
    requires var (R, tmp) := AfterPadding(H, zh, leaves, d, rows); R == Q && tmp[c] == Node(H, ys, c, 0)
    ensures |ys| <= Pow2(d) && StreamTree(H, zh, leaves, d, rows) == PaddedRoot(H, ys, d) && StreamRow(H, zh, leaves, d, rows) == Q
  {
    RiseOverZeros(H, zh[0 := Q], Q, ys, c, d);
    Pow2Monotone(c, d);
    NodeIsPaddedRoot(H, ys, d);
  }

  lemma PaddedSlot(H: HashFn, zh: seq<Chunk>, P: Chunk, leaves: seq<Chunk>, d: nat, rows: nat, c: nat, l: nat, v: Chunk)
    requires Table(H, zh, P) && Suffice(zh, |leaves|, d, rows) && CoverDepth(|leaves|) == c && Pow2(c) != |leaves|
    requires c <= |zh| && Climb(H, zh, Slots(H, zh, |leaves| % 256, c, leaves, rows), |leaves| % 256, c, |leaves|, 0, P) == (l, v)
    ensures l < rows && AfterPadding(H, zh, leaves, d, rows) == (v, Slots(H, zh, |leaves| % 256, c, leaves, rows)[l := v])
  {
  }

  /** The padding call climbs like a leaf P behind the others. */
  lemma FinalClimb(H: HashFn, zh: seq<Chunk>, tmp: seq<Chunk>, size: nat, c: nat, xs: seq<Chunk>, P: Chunk)
    requires Reaches(|tmp|, c, |xs|) && c <= |zh| && |xs| != size && Pending(H, tmp, xs, |xs|)
    ensures var (l, v) := Climb(H, zh, tmp, size, c, |xs|, 0, P);
            LowOnes(|xs|, l) && !Bit(|xs|, l) && v == Node(H, xs + [P], l, Shr(|xs|, l))
  {
    var n, ys := |xs|, xs + [P];
    forall j | 0 <= j < |tmp| && Bit(n, j) ensures tmp[j] == Node(H, ys, j, Shr(n, j) - 1) {
      ShrBounds(n, j);
      NodePrefix(H, xs, ys, j, Shr(n, j) - 1, n);
    }
    ClimbOnes(H, zh, tmp, size, c, n, 0, P, ys);
  }

  /** The padding call ends exactly at the cover depth. */
  ghost predicate PadsTop(n: nat, c: nat) { n % 256 + 1 == Pow2(c) && !Bit(n, c) }

  lemma LowBitsAgree(n: nat, s: nat, c: nat)
    requires s == n % 256 && c <= 8
    ensures LowOnes(n, c) <==> LowOnes(s, c)
  {
    var q := n / 256;
    assert n == 256 * q + s;
    forall t | 0 <= t < c ensures Bit(n, t) <==> Bit(s, t) { ShrBlock(q, s, t); }
  }

  lemma NotAllOnes(s: nat, c: nat)
    requires c > 0 && s <= Pow2(c) && s + 1 != Pow2(c)
    ensures !LowOnes(s, c)
  {
    if LowOnes(s, c) {
      OnesValue(s, c);
      MulMonotone(1, Shr(s, c), Pow2(c));
    }
  }

  lemma TopIff(n: nat, c: nat, l: nat)
    requires n > 256 && 0 < c <= 8 && Related(n % 256, c) && LowOnes(n, l) && !Bit(n, l)
    ensures l == c <==> PadsTop(n, c)
  {
    var s := n % 256;
    LowBitsAgree(n, s, c);
    if s + 1 == Pow2(c) {
      AllOnes(c);
      OnesAreLow(s);
      if !Bit(n, c) { OnesUnique(n, c, l); }
    } else {
      NotAllOnes(s, c);
    }
  }

  /** First leaf of the last subtree stored at level c. */
  function LastStart(n: nat, c: nat): (r: nat)
    requires Pow2(c) <= n
    ensures r + Pow2(c) <= n
  {
    LastRange(n, c);
    2 * (Stores(n, c) - 1) * Pow2(c)
  }

  lemma LastRange(n: nat, c: nat)
    requires Pow2(c) <= n
    ensures Stores(n, c) >= 1 && 2 * (Stores(n, c) - 1) * Pow2(c) + Pow2(c) <= n
  {
    ShrBounds(n, c);
    var k := 2 * (Stores(n, c) - 1);
    MulMonotone(k + 1, Shr(n, c), Pow2(c));
  }

  /** The slots after the padding call. */
  lemma FinalSlots(H: HashFn, zh: seq<Chunk>, P: Chunk, leaves: seq<Chunk>, d: nat, rows: nat, s: nat, c: nat, xs: seq<Chunk>)
    returns (l: nat, v: Chunk, tmp: seq<Chunk>)
    requires Table(H, zh, P) && Suffice(zh, |leaves|, d, rows) && |leaves| > 256 && s == |leaves| % 256 && c == CoverDepth(|leaves|)
    requires 0 < c <= 8 && Related(s, c) && xs == Seen(leaves, s)
    ensures LowOnes(|leaves|, l) && !Bit(|leaves|, l) && v == Node(H, xs + [P], l, Shr(|leaves|, l))
    ensures |tmp| == rows && l < rows && Stored(H, tmp, xs, |leaves|, c) && AfterPadding(H, zh, leaves, d, rows) == (v, tmp[l := v])
  {
    var n := |leaves|;
    tmp := Slots(H, zh, s, c, leaves, rows);
    TellsAll(H, zh, s, c, leaves, rows);
    assert leaves[..n] == leaves;
    FinalClimb(H, zh, tmp, s, c, xs, P);
    var r := Climb(H, zh, tmp, s, c, n, 0, P);
    l, v := r.0, r.1;
    assert Pow2(c) <= 256 by { SmallPowers(); Pow2Monotone(c, 8); }
    PaddedSlot(H, zh, P, leaves, d, rows, c, l, v);
  }

  lemma RowIsRoot(H: HashFn, xs: seq<Chunk>, P: Chunk, l: nat, ys: seq<Chunk>)
    requires LowOnes(|xs|, l) && Pow2(l) <= |xs| + 1 && ys == xs[|xs| + 1 - Pow2(l)..] + [P]
    ensures |ys| == Pow2(l) && Node(H, xs + [P], l, Shr(|xs|, l)) == Node(H, ys, l, 0)
  {
    OnesValue(|xs|, l);
    var lo := |xs| + 1 - Pow2(l);
    assert (xs + [P])[lo..lo + Pow2(l)] == ys;
    NodeOfSlice(H, xs + [P], l, Shr(|xs|, l), lo, ys);
  }

  lemma OnesFit(n: nat, l: nat)
    requires LowOnes(n, l)
    ensures Pow2(l) <= n + 1
  {
    OnesValue(n, l);
  }

  /** The leaves a list of more than 256 is hashed by, under cover depth c. */
  function Hashes(leaves: seq<Chunk>, P: Chunk, c: nat, top: bool): (r: seq<Chunk>)
    requires |leaves| > 256 && Pow2(c) <= 256
    ensures |r| == Pow2(c)
  {
    var n := |leaves|;
    if top then leaves[n + 1 - Pow2(c)..] + [P]
    else Seen(leaves, n % 256)[LastStart(n, c)..LastStart(n, c) + Pow2(c)]
  }

  lemma SeenAll(leaves: seq<Chunk>, s: nat, c: nat)
    requires c > 0 && s + 1 == Pow2(c) && s < |leaves|
    ensures Seen(leaves, s) == leaves
  {
    AllOnes(c);
  }

  lemma StaleSlot(H: HashFn, xs: seq<Chunk>, n: nat, c: nat, tmp: seq<Chunk>, ys: seq<Chunk>)
    requires n == |xs| && Pow2(c) <= n && c < |tmp| && Stored(H, tmp, xs, n, c)
    requires ys == xs[LastStart(n, c)..LastStart(n, c) + Pow2(c)]
    ensures tmp[c] == Node(H, ys, c, 0)
  {
    LastRange(n, c);
    NodeOfSlice(H, xs, c, 2 * (Stores(n, c) - 1), LastStart(n, c), ys);
  }

  /** The slot at the cover depth, in either case. */
  lemma TopSlot(H: HashFn, leaves: seq<Chunk>, P: Chunk, c: nat, tmp: seq<Chunk>, l: nat, v: Chunk, xs: seq<Chunk>, top: bool)
    requires |leaves| > 256 && 0 < c < |tmp| && l < |tmp| && Pow2(c) <= 256 && xs == Seen(leaves, |leaves| % 256)
    requires top <==> l == c
    requires top ==> LowOnes(|leaves|, c) && xs == leaves && v == Node(H, leaves + [P], c, Shr(|leaves|, c))
    requires Stored(H, tmp, xs, |leaves|, c)
    ensures tmp[l := v][c] == Node(H, Hashes(leaves, P, c, top), c, 0)
  {
    if top {
      RowIsRoot(H, leaves, P, c, Hashes(leaves, P, c, true));
    } else {
      StaleSlot(H, xs, |leaves|, c, tmp, Hashes(leaves, P, c, false));
    }
  }

  lemma LongDepth(n: nat, c: nat, d: nat)
    requires n > 256 && c == CoverDepth(n) <= d
    ensures 0 < c <= 8 && Pow2(c) <= 256 && Pow2(c) <= Pow2(d) && Related(n % 256, c)
  {
    IndexRelated(n, n % 256);
    SmallPowers();
    Pow2Monotone(c, 8);
    Pow2Monotone(c, d);
  }

  lemma LongRow(H: HashFn, xs: seq<Chunk>, P: Chunk, l: nat, v: Chunk)
    requires LowOnes(|xs|, l) && !Bit(|xs|, l) && v == Node(H, xs + [P], l, Shr(|xs|, l))
    ensures l == Ones(|xs|) && Pow2(l) <= |xs| + 1
    ensures var ys := xs[|xs| + 1 - Pow2(l)..] + [P]; |ys| == Pow2(l) && v == Node(H, ys, l, 0)
  {
    OnesAreLow(|xs|);
    OnesUnique(|xs|, Ones(|xs|), l);
    OnesFit(|xs|, l);
    RowIsRoot(H, xs, P, l, xs[|xs| + 1 - Pow2(l)..] + [P]);
  }

  lemma TopIsAll(leaves: seq<Chunk>, c: nat, l: nat, xs: seq<Chunk>)
    requires |leaves| > 256 && 0 < c <= 8 && Related(|leaves| % 256, c) && xs == Seen(leaves, |leaves| % 256)
    requires LowOnes(|leaves|, l) && !Bit(|leaves|, l)
    ensures PadsTop(|leaves|, c) <==> l == c
    ensures PadsTop(|leaves|, c) ==> xs == leaves
  {
    TopIff(|leaves|, c, l);
    if PadsTop(|leaves|, c) { SeenAll(leaves, |leaves| % 256, c); }
  }

  lemma LongTree(H: HashFn, zh: seq<Chunk>, P: Chunk, leaves: seq<Chunk>, d: nat, rows: nat, s: nat, c: nat, top: bool, xs: seq<Chunk>)
    returns (l: nat, v: Chunk)
    requires Table(H, zh, P) && Suffice(zh, |leaves|, d, rows) && |leaves| > 256 && s == |leaves| % 256 && c == CoverDepth(|leaves|)
    requires 0 < c <= 8 && c <= d && Pow2(c) <= 256 && Pow2(c) <= Pow2(d) && Related(s, c) && xs == Seen(leaves, s) && top == PadsTop(|leaves|, c)
    ensures LowOnes(|leaves|, l) && !Bit(|leaves|, l) && v == Node(H, xs + [P], l, Shr(|leaves|, l))
    ensures StreamTree(H, zh, leaves, d, rows) == PaddedRoot(H, Hashes(leaves, P, c, top), d) && StreamRow(H, zh, leaves, d, rows) == v
  {
    var tmp;
    l, v, tmp := FinalSlots(H, zh, P, leaves, d, rows, s, c, xs);
    TopIsAll(leaves, c, l, xs);
    TopSlot(H, leaves, P, c, tmp, l, v, xs, top);
    Repadded(H, zh, P, v);
    Extends(H, zh, v, Hashes(leaves, P, c, top), c, d, leaves, rows);
  }

  /** What the streaming code makes of any list of more than 256 leaves: the padded tree of one
      run of 2^c leaves, c being the cover depth. If the padding call ends at that depth, these are
      the last leaves and row 0; otherwise those of the last subtree stored there, as seen after
      one leaf was taken for the padding call. Row 0 becomes the root of itself and of as many last
      leaves as the ones at the end of the number say. */
  lemma LongListHashes(H: HashFn, zh: seq<Chunk>, P: Chunk, leaves: seq<Chunk>, d: nat, rows: nat, c: nat, top: bool)
    requires Table(H, zh, P) && Suffice(zh, |leaves|, d, rows) && |leaves| > 256 && c == CoverDepth(|leaves|) <= d
    requires top == PadsTop(|leaves|, c)
    ensures 0 < c <= 8 && Pow2(c) <= 256 && Pow2(c) <= Pow2(d) && Pow2(Ones(|leaves|)) <= |leaves| + 1
    ensures StreamTree(H, zh, leaves, d, rows) == PaddedRoot(H, Hashes(leaves, P, c, top), d)
    ensures var ys := Seen(leaves, |leaves| % 256)[|leaves| + 1 - Pow2(Ones(|leaves|))..] + [P];
            |ys| == Pow2(Ones(|leaves|)) && StreamRow(H, zh, leaves, d, rows) == Node(H, ys, Ones(|leaves|), 0)
  {
    var s, xs := |leaves| % 256, Seen(leaves, |leaves| % 256);
    LongDepth(|leaves|, c, d);
    var l, v := LongTree(H, zh, P, leaves, d, rows, s, c, top, xs);
    LongRow(H, xs, P, l, v);
  }

  // ----- the cases

  lemma PowerProduct(c: nat)
    requires c <= 8
    ensures Pow2(8 - c) * Pow2(c) == 256
  {
    SmallPowers();
    if c == 0 || c == 8 {} else if c == 1 || c == 7 {} else if c == 2 || c == 6 {} else if c == 3 || c == 5 {} else {}
  }

  lemma Regroup(q: nat, a: nat, b: nat)
    ensures (q * a) * b == q * (a * b)
  {
  }

  /** 256 q in units of 2^c. */
  lemma BlockUnits(q: nat, c: nat, z: nat)
    requires c < 8 && z == q * Pow2(7 - c)
    ensures 2 * z == q * Pow2(8 - c) && (2 * z) * Pow2(c) == 256 * q
  {
    TwiceProduct(q, Pow2(7 - c));
    PowerProduct(c);
    Regroup(q, Pow2(8 - c), Pow2(c));
  }

  lemma StartOf(n: nat, c: nat, z: nat)
    requires Pow2(c) <= n && z > 0 && (Shr(n, c) == 2 * z || Shr(n, c) == 2 * z + 1)
    ensures LastStart(n, c) == if Shr(n, c) == 2 * z then (2 * z) * Pow2(c) - 2 * Pow2(c) else (2 * z) * Pow2(c)
  {
    var p := Pow2(c);
    assert Stores(n, c) == if Shr(n, c) == 2 * z then z else z + 1;
    TwoLess(2 * z, p);
  }

  lemma ShrInBlock(q: nat, m: nat, c: nat, z: nat)
    requires c < 8 && m <= Pow2(c) && 2 * z == q * Pow2(8 - c)
    ensures Shr(256 * q + m, c) == if m == Pow2(c) then 2 * z + 1 else 2 * z
  {
    ShrBlock(q, m, c);
    if m < Pow2(c) { ShrSmall(m, c); } else { ShrPow2(c, c); }
  }

  /** First leaf of the last subtree stored at level c after 256 q + m leaves. */
  lemma StartInBlock(q: nat, m: nat, c: nat)
    requires q > 0 && c < 8 && m <= Pow2(c)
    ensures Pow2(c) <= 128 && LastStart(256 * q + m, c) == if m == Pow2(c) then 256 * q else 256 * q - 2 * Pow2(c)
  {
    var z := q * Pow2(7 - c);
    assert Pow2(c) <= 128 by { SmallPowers(); Pow2Monotone(c, 7); }
    MulMonotone(1, q, Pow2(7 - c));
    BlockUnits(q, c, z);
    ShrInBlock(q, m, c, z);
    StartOf(256 * q + m, c, z);
  }

  lemma SeenLater(leaves: seq<Chunk>, s: nat, lo: nat, hi: nat)
    requires s < lo <= hi <= |leaves|
    ensures Seen(leaves, s)[lo..hi] == leaves[lo..hi]
  {
    forall i | lo <= i < hi ensures Seen(leaves, s)[i] == leaves[i] { SeenAgrees(leaves, s, i); }
  }

  lemma DepthInBlock(q: nat, m: nat, c: nat)
    requires q > 0 && 1 < m <= 256 && LeastCover(m, c)
    ensures CoverDepth(256 * q + m) == c
  {
    BlockDepth(q, m);
    CoverDepthCovers(m);
    LeastCoverUnique(m, c, CoverDepth(m));
  }

  lemma HashesRun(leaves: seq<Chunk>, P: Chunk, c: nat, lo: nat)
    requires |leaves| > 256 && Pow2(c) <= 256 && lo == LastStart(|leaves|, c) && |leaves| % 256 < lo
    ensures Hashes(leaves, P, c, false) == leaves[lo..lo + Pow2(c)]
  {
    SeenLater(leaves, |leaves| % 256, lo, lo + Pow2(c));
  }

  /** A run of leaves behind the one taken for the padding call is hashed as it is. */
  lemma RunResult(H: HashFn, zh: seq<Chunk>, P: Chunk, leaves: seq<Chunk>, d: nat, rows: nat, c: nat, lo: nat)
    requires Table(H, zh, P) && Suffice(zh, |leaves|, d, rows) && |leaves| > 256 && c == CoverDepth(|leaves|) <= d
    requires !PadsTop(|leaves|, c) && Pow2(c) <= 256 && lo == LastStart(|leaves|, c) && |leaves| % 256 < lo
    ensures Pow2(c) <= Pow2(d) && StreamTree(H, zh, leaves, d, rows) == PaddedRoot(H, leaves[lo..lo + Pow2(c)], d)
  {
    HashesRun(leaves, P, c, lo);
    LongListHashes(H, zh, P, leaves, d, rows, c, false);
  }

  lemma EvenRow(H: HashFn, zh: seq<Chunk>, P: Chunk, leaves: seq<Chunk>, d: nat, rows: nat, c: nat)
    requires Table(H, zh, P) && Suffice(zh, |leaves|, d, rows) && |leaves| > 256 && c == CoverDepth(|leaves|) <= d && |leaves| % 2 == 0
    ensures StreamRow(H, zh, leaves, d, rows) == P
  {
    LongListHashes(H, zh, P, leaves, d, rows, c, PadsTop(|leaves|, c));
    assert Ones(|leaves|) == 0;
  }

  lemma EvenBlock(q: nat, h: nat)
    ensures (256 * q + 2 * h) % 2 == 0
  {
    assert 256 * q + 2 * h == 2 * (128 * q + h);
  }

  lemma PowerCase(n: nat, q: nat, e: nat)
    requires q > 0 && 0 < e < 8 && n == 256 * q + Pow2(e)
    ensures CoverDepth(n) == e && Pow2(e) <= 128 && LastStart(n, e) == 256 * q && n % 256 < 256 * q && !PadsTop(n, e) && n % 2 == 0
  {
    var p := Pow2(e);
    StartInBlock(q, p, e);
    DepthInBlock(q, p, e);
    BlockRemainder(q, p);
    EvenBlock(q, Pow2(e - 1));
  }

  /** Of 256 q + 2^e leaves only the last 2^e are hashed: the result is the root of their
      padded tree, and row 0 is not touched. */
  lemma OnlyLastBlock(H: HashFn, zh: seq<Chunk>, P: Chunk, leaves: seq<Chunk>, d: nat, rows: nat, q: nat, e: nat)
    requires Table(H, zh, P) && Suffice(zh, |leaves|, d, rows) && q > 0 && 0 < e < 8 && e <= d && |leaves| == 256 * q + Pow2(e)
    ensures |leaves[256 * q..]| <= Pow2(d)
    ensures StreamTree(H, zh, leaves, d, rows) == PaddedRoot(H, leaves[256 * q..], d)
    ensures StreamRow(H, zh, leaves, d, rows) == P
  {
    PowerCase(|leaves|, q, e);
    RunResult(H, zh, P, leaves, d, rows, e, 256 * q);
    assert leaves[256 * q..256 * q + Pow2(e)] == leaves[256 * q..];
    EvenRow(H, zh, P, leaves, d, rows, e);
  }

  /** The last leaves and row 0, where the padding call ends at the cover depth. */
  lemma TopResult(H: HashFn, zh: seq<Chunk>, P: Chunk, leaves: seq<Chunk>, d: nat, rows: nat, c: nat, ys: seq<Chunk>)
    requires Table(H, zh, P) && Suffice(zh, |leaves|, d, rows) && |leaves| > 256 && c == CoverDepth(|leaves|) <= d
    requires PadsTop(|leaves|, c) && Pow2(c) <= 256 && ys == leaves[|leaves| + 1 - Pow2(c)..] + [P]
    ensures |ys| <= Pow2(d) && StreamTree(H, zh, leaves, d, rows) == PaddedRoot(H, ys, d)
  {
    LongListHashes(H, zh, P, leaves, d, rows, c, true);
  }

  lemma OneEnd(q: nat)
    ensures Ones(256 * q + 1) == 1
  {
    assert (256 * q + 1) / 2 == 128 * q;
  }

  lemma LastSeen(leaves: seq<Chunk>, P: Chunk, n: nat)
    requires n == |leaves| > 256 && n % 256 < n - 1
    ensures Seen(leaves, n % 256)[n - 1..] + [P] == [leaves[n - 1], P]
  {
    SeenLater(leaves, n % 256, n - 1, n);
    var xs := Seen(leaves, n % 256);
    assert xs[n - 1..] == xs[n - 1..n] == leaves[n - 1..n] == [leaves[n - 1]];
  }

  lemma NodeOfTwo(H: HashFn, a: Chunk, b: Chunk)
    ensures Node(H, [a, b], 1, 0) == HashPair(H, a, b)
  {
    assert Leaf([a, b], 0) == a && Leaf([a, b], 1) == b;
  }

  lemma OneRow(H: HashFn, zh: seq<Chunk>, P: Chunk, leaves: seq<Chunk>, d: nat, rows: nat, c: nat, n: nat)
    requires Table(H, zh, P) && Suffice(zh, n, d, rows) && n == |leaves| > 256 && c == CoverDepth(n) <= d
    requires Ones(n) == 1 && n % 256 < n - 1 && Pow2(1) == 2
    ensures StreamRow(H, zh, leaves, d, rows) == HashPair(H, leaves[n - 1], P)
  {
    LastSeen(leaves, P, n);
    NodeOfTwo(H, leaves[n - 1], P);
    LongListHashes(H, zh, P, leaves, d, rows, c, PadsTop(n, c));
  }

  lemma OnePadsTop(q: nat)
    requires q > 0
    ensures CoverDepth(256 * q + 1) == 1 && PadsTop(256 * q + 1, 1) && (256 * q + 1) % 256 == 1 && Pow2(1) == 2
  {
    SmallPowers();
    FirstDepths(q);
    BlockRemainder(q, 1);
    ShrBlock(q, 1, 1);
    ShrStays(1, 1);
  }

  /** Of 256 q + 1 leaves only the last is hashed, with row 0 beside it. */
  lemma OnlyLastLeaf(H: HashFn, zh: seq<Chunk>, P: Chunk, leaves: seq<Chunk>, d: nat, rows: nat, q: nat)
    requires Table(H, zh, P) && Suffice(zh, |leaves|, d, rows) && q > 0 && 0 < d && |leaves| == 256 * q + 1
    ensures 2 <= Pow2(d) && StreamTree(H, zh, leaves, d, rows) == PaddedRoot(H, [leaves[256 * q], P], d)
    ensures StreamRow(H, zh, leaves, d, rows) == HashPair(H, leaves[256 * q], P)
  {
    OnePadsTop(q);
    OneEnd(q);
    TopResult(H, zh, P, leaves, d, rows, 1, [leaves[256 * q], P]);
    OneRow(H, zh, P, leaves, d, rows, 1, |leaves|);
  }

  lemma StaleCase(n: nat, q: nat, m: nat, c: nat)
    requires q > 0 && 1 < m && c < 8 && n == 256 * q + m && LeastCover(m, c) && m + 1 < Pow2(c) && (q > 1 || c < 7)
    ensures CoverDepth(n) == c && Pow2(c) <= 128 && !PadsTop(n, c)
    ensures LastStart(n, c) == 256 * q - 2 * Pow2(c) && n % 256 < 256 * q - 2 * Pow2(c)
  {
    StartInBlock(q, m, c);
    DepthInBlock(q, m, c);
    BlockRemainder(q, m);
    assert c < 7 ==> Pow2(c) <= 64 by { SmallPowers(); if c < 7 { Pow2Monotone(c, 6); } }
  }

  /** Of 256 q + m leaves, m being neither a power of two nor one less and at most 126, none of
      the last m is hashed, but a run of the block before. */
  lemma OnlyStaleRun(H: HashFn, zh: seq<Chunk>, P: Chunk, leaves: seq<Chunk>, d: nat, rows: nat, q: nat, m: nat, c: nat)
    requires Table(H, zh, P) && Suffice(zh, |leaves|, d, rows) && q > 0 && 1 < m && c < 8 && c <= d && |leaves| == 256 * q + m
    requires LeastCover(m, c) && m + 1 < Pow2(c) && (q > 1 || c < 7)
    ensures var lo := 256 * q - 2 * Pow2(c);
            0 <= lo && Pow2(c) <= Pow2(d) && StreamTree(H, zh, leaves, d, rows) == PaddedRoot(H, leaves[lo..lo + Pow2(c)], d)
  {
    StaleCase(|leaves|, q, m, c);
    RunResult(H, zh, P, leaves, d, rows, c, 256 * q - 2 * Pow2(c));
  }

  lemma WholeBlockCase(n: nat, q: nat) returns (c: nat)
    requires q > 1 && n == 512 * q
    ensures c == CoverDepth(n) && Pow2(c) == 256 && !PadsTop(n, c) && n % 256 == 0 && LastStart(n, c) == 512 * (q - 1)
  {
    c := 8;
    SmallPowers();
    FirstDepths(2 * q - 1);
    BlockRemainder(2 * q, 0);
    ShrBlock(2 * q, 0, 8);
    ShrStays(0, 8);
    assert Shr(n, 8) == 2 * q;
    StartOf(n, 8, q);
  }

  /** Of 512 q leaves only the 256 before the last 256 are hashed. */
  lemma OnlyBlockBefore(H: HashFn, zh: seq<Chunk>, P: Chunk, leaves: seq<Chunk>, d: nat, rows: nat, q: nat)
    requires Table(H, zh, P) && Suffice(zh, |leaves|, d, rows) && CoverDepth(|leaves|) <= d && q > 1 && |leaves| == 512 * q
    ensures var lo := 512 * (q - 1); 256 <= Pow2(d) && StreamTree(H, zh, leaves, d, rows) == PaddedRoot(H, leaves[lo..lo + 256], d)
  {
    var c := WholeBlockCase(|leaves|, q);
    RunResult(H, zh, P, leaves, d, rows, c, 512 * (q - 1));
  }
}
