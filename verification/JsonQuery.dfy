/** json_getProperty of lib/tiny-json.c: walking the sibling chain of a parsed container finds
    the first child of that name in the tree. */
module JsonQuery {
  import opened JsonText
  import opened JsonGrammar
  import opened JsonLayout
  import opened JsonParser

  predicate HasName(tree: Tree, property: string) { tree.name.Named? && tree.name.text == property }

  /** The node of child k of a container at index i. */
  function KidIndex(kids: seq<Tree>, i: nat, k: nat): nat
    requires k <= |kids|
  {
    i + 1 + SizeAll(kids[..k])
  }

  lemma {:induction false} KidNode(kids: seq<Tree>, i: nat, tail: int, k: nat)
    requires k < |kids|
    ensures SizeAll(kids[..k]) < SizeAll(kids)
    ensures var n := KidsImage(kids, i, tail)[SizeAll(kids[..k])];
            n.name == NamePos(kids[k].name) &&
            n.sibling == if k == |kids| - 1 then tail else i + SizeAll(kids[..k + 1])
    decreases |kids|
  {
    var init := kids[..|kids| - 1];
    if k < |kids| - 1 {
      KidNode(init, i, i + SizeAll(init), k);
      assert init[..k] == kids[..k] && init[..k + 1] == kids[..k + 1];
    }
  }

  lemma {:induction false} NameIsToken(kids: seq<Tree>, k: nat) returns (n: nat)
    requires k < |kids| && kids[k].name.Named?
    ensures n < |KidsTokens(kids)| && KidsTokens(kids)[n] == Piece(kids[k].name.pos, kids[k].name.text)
    decreases |kids|
  {
    var init := kids[..|kids| - 1];
    if k < |init| {
      n := NameIsToken(init, k);
    } else {
      n := |KidsTokens(init)|;
      assert Tokens(kids[k])[0] == Piece(kids[k].name.pos, kids[k].name.text);
    }
  }

  /** strcmp(buf + pos, property) == 0 */
  method SameString(buf: array<char>, pos: nat, property: string, ghost s: string) returns (same: bool)
    requires CString(buf[..], pos, s) && Clean(property)
    ensures same == (s == property)
  {
    var k := 0;
    while true
      invariant k <= |s| && k <= |property| && s[..k] == property[..k]
      decreases |s| - k
    {
      assert buf[pos + k] == At(s, k) by {
        if k < |s| { assert buf[..][pos..pos + |s|][k] == buf[pos + k]; }
      }
      if buf[pos + k] != At(property, k) { return false; }
      if buf[pos + k] == NUL { return true; }
      k := k + 1;
    }
  }

  /** Child k of the container at obj, as the memory shows it. */
  lemma KidInMemory(tree: Tree, mem: seq<JNode>, obj: nat, sib: int, k: nat)
    requires tree.Container? && k < |tree.kids| && obj + Size(tree) <= |mem|
    requires mem[obj..obj + Size(tree)] == Image(tree, obj, sib)
    ensures KidIndex(tree.kids, obj, k) < obj + Size(tree)
    ensures var n := mem[KidIndex(tree.kids, obj, k)];
            n.name == NamePos(tree.kids[k].name) &&
            n.sibling == if k == |tree.kids| - 1 then -1 else KidIndex(tree.kids, obj, k + 1)
  {
    KidNode(tree.kids, obj + 1, -1, k);
    var img := Image(tree, obj, sib);
    assert img[1 + SizeAll(tree.kids[..k])] == KidsImage(tree.kids, obj + 1, -1)[SizeAll(tree.kids[..k])];
    assert mem[obj..obj + Size(tree)][1 + SizeAll(tree.kids[..k])] == mem[KidIndex(tree.kids, obj, k)];
  }

  method GetProperty(buf: array<char>, mem: array<JNode>, obj: nat, property: string, ghost tree: Tree, ghost sib: int)
    returns (r: int, ghost k: nat)
    requires tree.Container? && Clean(property) && obj + Size(tree) <= mem.Length
    requires mem[obj..obj + Size(tree)] == Image(tree, obj, sib) && TextInPlace(buf[..], tree)
    ensures k <= |tree.kids| && forall j :: 0 <= j < k ==> !HasName(tree.kids[j], property)
    ensures if k < |tree.kids| then HasName(tree.kids[k], property) && r == KidIndex(tree.kids, obj, k) else r == -1
  {
    k := 0;
    ghost var kids := tree.kids;
    assert mem[obj] == Image(tree, obj, sib)[0];
    r := mem[obj].u;
    while r != -1
      invariant k <= |kids| && r == if k < |kids| then KidIndex(kids, obj, k) else -1
      invariant forall j :: 0 <= j < k ==> !HasName(kids[j], property)
      decreases |kids| - k
    {
      KidInMemory(tree, mem[..], obj, sib, k);
      if mem[r].name != -1 {
        ghost var n := NameIsToken(kids, k);
        assert Tokens(tree)[|NameTokens(tree.name)| + n] == KidsTokens(kids)[n];
        var same := SameString(buf, mem[r].name, property, kids[k].name.text);
        if same { return; }
      }
      r := mem[r].sibling;
      k := k + 1;
    }
  }

  // ----- a child's own nodes and texts

  /** A tree is in memory: its nodes from obj on, its texts in the buffer. */
  ghost predicate Held(tree: Tree, buf: seq<char>, mem: seq<JNode>, obj: nat, sib: int) {
    obj + Size(tree) <= |mem| && mem[obj..obj + Size(tree)] == Image(tree, obj, sib) && TextInPlace(buf, tree)
  }

  /** What the sibling field of child k shows. */
  function LinkOf(kids: seq<Tree>, i: nat, tail: int, k: nat): int
    requires k < |kids|
  {
    if k == |kids| - 1 then tail else i + SizeAll(kids[..k + 1])
  }

  lemma LastSlice(kids: seq<Tree>, i: nat, tail: int, k: nat, lo: nat, hi: nat)
    requires k == |kids| - 1 && lo == SizeAll(Init(kids)) && hi == SizeAll(kids)
    ensures lo <= hi && KidsImage(kids, i, tail)[lo..hi] == Image(kids[k], i + lo, LinkOf(kids, i, tail, k))
  {
    KidsSnoc(kids, i, tail);
    Suffix(KidsImage(Init(kids), i, i + lo), Image(kids[k], i + lo, tail), lo, hi);
  }

  lemma Suffix(a: seq<JNode>, b: seq<JNode>, lo: nat, hi: nat)
    requires lo == |a| && hi == |a| + |b|
    ensures (a + b)[lo..hi] == b
  {
  }

  lemma FrontSlice(kids: seq<Tree>, i: nat, tail: int, lo: nat, hi: nat)
    requires kids != [] && lo <= hi <= SizeAll(Init(kids))
    ensures hi <= SizeAll(kids) && KidsImage(kids, i, tail)[lo..hi] == KidsImage(Init(kids), i, i + SizeAll(Init(kids)))[lo..hi]
  {
    KidsSnoc(kids, i, tail);
  }

  lemma {:induction false} KidSizes(kids: seq<Tree>, k: nat)
    requires k < |kids|
    ensures SizeAll(kids[..k]) + Size(kids[k]) == SizeAll(kids[..k + 1]) <= SizeAll(kids)
    decreases |kids|
  {
    assert kids[..k + 1][..k] == kids[..k];
    if k < |kids| - 1 {
      var init := kids[..|kids| - 1];
      KidSizes(init, k);
      assert init[..k + 1] == kids[..k + 1];
    } else {
      assert kids[..k + 1] == kids;
    }
  }

  /** Child k occupies lo to hi of the chain. */
  ghost predicate Placed(kids: seq<Tree>, i: nat, tail: int, k: nat, lo: nat, hi: nat)
    requires k < |kids|
  {
    forall all :: all == kids ==> lo <= hi <= SizeAll(all) && KidsImage(all, i, tail)[lo..hi] == Image(all[k], i + lo, LinkOf(all, i, tail, k))
  }

  lemma PlacedFront(kids: seq<Tree>, i: nat, tail: int, k: nat, lo: nat, hi: nat)
    requires k < |kids| - 1 && Placed(Init(kids), i, i + SizeAll(Init(kids)), k, lo, hi)
    ensures Placed(kids, i, tail, k, lo, hi)
  {
    assert SizeAll(Init(kids)) == |KidsImage(Init(kids), i, i + SizeAll(Init(kids)))|;
    FrontSlice(kids, i, tail, lo, hi);
    FrontLink(kids, i, tail, k);
  }

  lemma PlacedLast(kids: seq<Tree>, i: nat, tail: int, k: nat, lo: nat, hi: nat)
    requires k == |kids| - 1 && lo == SizeAll(Init(kids)) && hi == SizeAll(kids)
    ensures Placed(kids, i, tail, k, lo, hi)
  {
    LastSlice(kids, i, tail, k, lo, hi);
  }

  lemma {:induction false} KidSlice(kids: seq<Tree>, i: nat, tail: int, k: nat, lo: nat, hi: nat)
    requires k < |kids| && lo == SizeAll(kids[..k]) && hi == SizeAll(kids[..k + 1])
    ensures Placed(kids, i, tail, k, lo, hi)
    decreases |kids|
  {
    var init := Init(kids);
    if k < |init| {
      assert init[..k] == kids[..k] && init[..k + 1] == kids[..k + 1];
      KidSlice(init, i, i + SizeAll(init), k, lo, hi);
      PlacedFront(kids, i, tail, k, lo, hi);
    } else {
      assert kids[..k] == init && kids[..k + 1] == kids;
      PlacedLast(kids, i, tail, k, lo, hi);
    }
  }

  lemma FrontLink(kids: seq<Tree>, i: nat, tail: int, k: nat)
    requires k < |kids| - 1
    ensures LinkOf(Init(kids), i, i + SizeAll(Init(kids)), k) == LinkOf(kids, i, tail, k)
  {
    assert Init(kids)[..k + 1] == kids[..k + 1];
  }

  lemma {:induction false} KidTokens(kids: seq<Tree>, k: nat, n: nat) returns (m: nat)
    requires k < |kids| && n < |Tokens(kids[k])|
    ensures m < |KidsTokens(kids)| && KidsTokens(kids)[m] == Tokens(kids[k])[n]
    decreases |kids|
  {
    var init := kids[..|kids| - 1];
    if k < |init| {
      m := KidTokens(init, k, n);
    } else {
      m := |KidsTokens(init)| + n;
    }
  }

  lemma KidText(tree: Tree, buf: seq<char>, k: nat)
    requires tree.Container? && k < |tree.kids| && TextInPlace(buf, tree)
    ensures TextInPlace(buf, tree.kids[k])
  {
    var kid := tree.kids[k];
    forall n | 0 <= n < |Tokens(kid)| ensures CString(buf, Tokens(kid)[n].pos, Tokens(kid)[n].text) {
      var m := KidTokens(tree.kids, k, n);
      assert Tokens(tree)[|NameTokens(tree.name)| + m] == KidsTokens(tree.kids)[m];
    }
  }

  lemma SliceOfSlice(mem: seq<JNode>, lo: nat, n: nat, img: seq<JNode>, a: nat, b: nat)
    requires lo + n <= |mem| && mem[lo..lo + n] == img && a <= b <= n
    ensures mem[lo + a..lo + b] == img[a..b]
  {
    forall k | 0 <= k < b - a ensures mem[lo + a..lo + b][k] == img[a..b][k] {
      assert mem[lo..lo + n][a + k] == mem[lo + a + k];
    }
  }

  lemma TailSlice(x: JNode, kids: seq<JNode>, a: nat, b: nat)
    requires a <= b <= |kids|
    ensures ([x] + kids)[1 + a..1 + b] == kids[a..b]
  {
  }

  /** Every child of a container in memory is itself in memory, so that queries can go on there. */
  lemma KidHeld(tree: Tree, buf: seq<char>, mem: seq<JNode>, obj: nat, sib: int, k: nat)
    requires tree.Container? && k < |tree.kids| && Held(tree, buf, mem, obj, sib)
    ensures Held(tree.kids[k], buf, mem, KidIndex(tree.kids, obj, k), LinkOf(tree.kids, obj + 1, -1, k))
  {
    var kids, img := tree.kids, KidsImage(tree.kids, obj + 1, -1);
    var a, b := SizeAll(kids[..k]), SizeAll(kids[..k + 1]);
    KidSizes(kids, k);
    KidSlice(kids, obj + 1, -1, k, a, b);
    KidText(tree, buf, k);
    TailSlice(Image(tree, obj, sib)[0], img, a, b);
    SliceOfSlice(mem, obj, Size(tree), Image(tree, obj, sib), 1 + a, 1 + b);
  }

  /** A scalar in memory: its node and its text. */
  lemma ScalarHeld(tree: Tree, buf: seq<char>, mem: seq<JNode>, obj: nat, sib: int)
    requires tree.Scalar? && Held(tree, buf, mem, obj, sib)
    ensures mem[obj] == JNode(sib, NamePos(tree.name), tree.typ, tree.pos) && CString(buf, tree.pos, tree.text)
  {
    assert mem[obj] == Image(tree, obj, sib)[0];
    var ks := Tokens(tree);
    assert ks[|ks| - 1] == Piece(tree.pos, tree.text);
  }

  lemma ContainerHeld(tree: Tree, buf: seq<char>, mem: seq<JNode>, obj: nat, sib: int)
    requires tree.Container? && Held(tree, buf, mem, obj, sib)
    ensures mem[obj].typ == tree.typ
  {
    assert mem[obj] == Image(tree, obj, sib)[0];
  }

  /** json_getPropertyValue: where the text of the first child of that name stands, unless there
      is none or it is a container. */
  method GetPropertyValue(buf: array<char>, mem: array<JNode>, obj: nat, property: string, ghost tree: Tree, ghost sib: int)
    returns (r: int, ghost k: nat)
    requires tree.Container? && Clean(property) && Held(tree, buf[..], mem[..], obj, sib)
    requires forall j :: 0 <= j < |tree.kids| ==> (tree.kids[j].Container? <==> tree.kids[j].typ == OBJ || tree.kids[j].typ == ARRAY)
    ensures k <= |tree.kids| && forall j :: 0 <= j < k ==> !HasName(tree.kids[j], property)
    ensures k < |tree.kids| ==> HasName(tree.kids[k], property)
    ensures if k < |tree.kids| && tree.kids[k].Scalar? then r == tree.kids[k].pos && CString(buf[..], tree.kids[k].pos, tree.kids[k].text)
            else r == -1
  {
    r, k := GetProperty(buf, mem, obj, property, tree, sib);
    if r == -1 { return; }
    KidHeld(tree, buf[..], mem[..], obj, sib, k);
    if tree.kids[k].Scalar? {
      ScalarHeld(tree.kids[k], buf[..], mem[..], r, LinkOf(tree.kids, obj + 1, -1, k));
    } else {
      ContainerHeld(tree.kids[k], buf[..], mem[..], r, LinkOf(tree.kids, obj + 1, -1, k));
    }
    var typ := mem[r].typ;
    r := if typ == OBJ || typ == ARRAY then -1 else mem[r].u;
  }
}
