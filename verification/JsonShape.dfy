/** The node graph a successful parse leaves behind is a tree: every link goes forward, and
    every node but the root is the target of exactly one link. */
module JsonShape {
  import opened JsonText
  import opened JsonGrammar
  import opened JsonLayout

  predicate IsContainer(typ: JType) { typ == OBJ || typ == ARRAY }

  predicate WellTyped(tree: Tree)
    decreases tree, 1
  {
    match tree
    case Scalar(_, typ, _, _) => !IsContainer(typ)
    case Container(_, typ, kids) => IsContainer(typ) && AllWellTyped(kids)
  }

  predicate AllWellTyped(kids: seq<Tree>)
    decreases kids, 0
  {
    kids == [] || (AllWellTyped(kids[..|kids| - 1]) && WellTyped(kids[|kids| - 1]))
  }

  lemma {:induction false} WellTypedCons(tree: Tree, kids: seq<Tree>)
    requires WellTyped(tree) && AllWellTyped(kids)
    ensures AllWellTyped([tree] + kids)
    decreases |kids|
  {
    if kids == [] {
      assert ([tree] + kids)[..0] == [] && AllWellTyped([]);
    } else {
      var init := kids[..|kids| - 1];
      WellTypedCons(tree, init);
      assert ([tree] + kids)[..|kids|] == [tree] + init;
    }
  }

  lemma {:induction false} ItemsWellTyped(t: string, p: nat, typ: JType)
    requires p <= |t| && Items(t, p, typ).Some?
    ensures AllWellTyped(Items(t, p, typ).value.0)
    decreases |t| - p
  {
    var q := GoBlank(t, p).value;
    if t[q] == ',' {
      ItemsWellTyped(t, q + 1, typ);
    } else if t[q] != Close(typ) {
      var (name, v) := HeadAt(t, q, typ).value;
      assert ValueAt(t, v, name).Some?;
      if Opens(t[v]) {
        var (kids, e) := Items(t, v + 1, OpenType(t[v])).value;
        ItemsWellTyped(t, v + 1, OpenType(t[v]));
        ItemsWellTyped(t, e, typ);
        WellTypedCons(Container(name, OpenType(t[v]), kids), Items(t, e, typ).value.0);
      } else {
        var k := ScalarAt(t, v).value;
        ItemsWellTyped(t, k.next, typ);
        WellTypedCons(Scalar(name, k.typ, k.pos, k.text), Items(t, k.next, typ).value.0);
      }
    }
  }

  lemma ParseWellTyped(t: string)
    requires Parse(t).Some?
    ensures WellTyped(Parse(t).value)
  {
    var p := GoBlank(t, 0).value;
    ItemsWellTyped(t, p + 1, OpenType(t[p]));
  }

  // ----- counting links

  function One(b: bool): nat { if b then 1 else 0 }

  /** Links of one node to index n: its sibling, and its first child if it is a container. */
  function NodeLinks(node: JNode, n: nat): nat {
    One(node.sibling == n) + One(IsContainer(node.typ) && node.u == n)
  }

  function InLinks(nodes: seq<JNode>, n: nat): nat {
    if nodes == [] then 0 else InLinks(nodes[..|nodes| - 1], n) + NodeLinks(nodes[|nodes| - 1], n)
  }

  lemma {:induction false} InLinksConcat(a: seq<JNode>, b: seq<JNode>, n: nat)
    ensures InLinks(a + b, n) == InLinks(a, n) + InLinks(b, n)
    decreases |b|
  {
    if b == [] {
      assert a + b == a;
    } else {
      InLinksConcat(a, b[..|b| - 1], n);
      assert (a + b)[..|a + b| - 1] == a + b[..|b| - 1];
    }
  }

  lemma InLinksOne(node: JNode, n: nat)
    ensures InLinks([node], n) == NodeLinks(node, n)
  {
    assert [node][..0] == [] && InLinks([], n) == 0;
  }

  /** In a subtree at i, every node but its root has exactly one link to it. */
  lemma {:induction false} ImageLinks(tree: Tree, i: nat, sib: int, n: nat)
    requires WellTyped(tree)
    ensures InLinks(Image(tree, i, sib), n) == One(i < n < i + Size(tree)) + One(sib == n)
    decreases tree, 1
  {
    match tree {
      case Scalar(name, typ, pos, _) => InLinksOne(JNode(sib, NamePos(name), typ, pos), n);
      case Container(name, typ, kids) =>
        var root := JNode(sib, NamePos(name), typ, if kids == [] then -1 else i + 1);
        KidsLinks(kids, i + 1, -1, n);
        InLinksOne(root, n);
        InLinksConcat([root], KidsImage(kids, i + 1, -1), n);
    }
  }

  lemma {:induction false} KidsLinks(kids: seq<Tree>, i: nat, tail: int, n: nat)
    requires AllWellTyped(kids)
    ensures InLinks(KidsImage(kids, i, tail), n) == One(i < n < i + SizeAll(kids)) + One(kids != [] && tail == n)
    decreases kids, 0
  {
    if kids != [] {
      var init, last := kids[..|kids| - 1], kids[|kids| - 1];
      var e := i + SizeAll(init);
      KidsLinks(init, i, e, n);
      ImageLinks(last, e, tail, n);
      InLinksConcat(KidsImage(init, i, e), Image(last, e, tail), n);
      if init != [] { NonEmptySize(init); }
    }
  }

  lemma NonEmptySize(kids: seq<Tree>)
    requires kids != []
    ensures SizeAll(kids) > 0
  {
  }

  /** Every link of nodes placed at base goes to a higher index, below hi. */
  ghost predicate Forward(nodes: seq<JNode>, base: nat, hi: int) {
    forall k :: 0 <= k < |nodes| ==>
      && (nodes[k].sibling != -1 ==> base + k < nodes[k].sibling < hi)
      && (IsContainer(nodes[k].typ) && nodes[k].u != -1 ==> base + k < nodes[k].u < hi)
  }

  lemma {:induction false} ImageForward(tree: Tree, i: nat, sib: int, hi: int)
    requires WellTyped(tree) && i + Size(tree) <= hi && (sib != -1 ==> i < sib < hi)
    ensures Forward(Image(tree, i, sib), i, hi)
    decreases tree, 1
  {
    if tree.Container? {
      KidsForward(tree.kids, i + 1, -1, hi);
      if tree.kids != [] { NonEmptySize(tree.kids); }
    }
  }

  lemma {:induction false} KidsForward(kids: seq<Tree>, i: nat, tail: int, hi: int)
    requires AllWellTyped(kids) && i + SizeAll(kids) <= hi && (tail != -1 ==> i + SizeAll(kids) <= tail < hi)
    ensures Forward(KidsImage(kids, i, tail), i, hi)
    decreases kids, 0
  {
    if kids != [] {
      var init, last := kids[..|kids| - 1], kids[|kids| - 1];
      var e := i + SizeAll(init);
      KidsForward(init, i, e, hi);
      ImageForward(last, e, tail, hi);
      var a, b := KidsImage(init, i, e), Image(last, e, tail);
      assert |a| == SizeAll(init);
      assert KidsImage(kids, i, tail) == a + b;
    }
  }

  /** After a successful parse: links only lead forward inside the document, the root has none
      to it, and every other node exactly one. No way back to a parent is left. */
  lemma ParsedIsTree(t: string, n: nat)
    requires Parse(t).Some?
    ensures var tree := Parse(t).value;
            Forward(Image(tree, 0, -1), 0, Size(tree)) &&
            InLinks(Image(tree, 0, -1), n) == if 0 < n < Size(tree) then 1 else 0
  {
    ParseWellTyped(t);
    ImageForward(Parse(t).value, 0, -1, Size(Parse(t).value));
    ImageLinks(Parse(t).value, 0, -1, n);
  }

  // ----- reachability

  predicate LinksTo(node: JNode, n: nat) { NodeLinks(node, n) > 0 }

  /** The nodes visited on the way from the root to n, one link at a time. */
  ghost predicate IsPath(nodes: seq<JNode>, p: seq<nat>, n: nat) {
    && p != [] && p[0] == 0 && p[|p| - 1] == n
    && (forall i :: 0 <= i < |p| ==> p[i] < |nodes|)
    && (forall i :: 0 <= i < |p| - 1 ==> LinksTo(nodes[p[i]], p[i + 1]))
  }

  lemma {:induction false} SomeLink(nodes: seq<JNode>, n: nat) returns (k: nat)
    requires InLinks(nodes, n) > 0
    ensures k < |nodes| && LinksTo(nodes[k], n)
  {
    var init := nodes[..|nodes| - 1];
    if LinksTo(nodes[|nodes| - 1], n) {
      k := |nodes| - 1;
    } else {
      k := SomeLink(init, n);
    }
  }

  lemma {:induction false} LinkCounts(nodes: seq<JNode>, n: nat, k: nat)
    requires k < |nodes| && LinksTo(nodes[k], n)
    ensures InLinks(nodes, n) > 0
  {
    if k < |nodes| - 1 { LinkCounts(nodes[..|nodes| - 1], n, k); }
  }

  lemma {:induction false} OneLink(nodes: seq<JNode>, n: nat, j: nat, k: nat)
    requires InLinks(nodes, n) <= 1 && j < |nodes| && k < |nodes| && LinksTo(nodes[j], n) && LinksTo(nodes[k], n)
    ensures j == k
  {
    var init := nodes[..|nodes| - 1];
    if j < |init| { LinkCounts(init, n, j); }
    if k < |init| { LinkCounts(init, n, k); }
    if j < |init| && k < |init| { OneLink(init, n, j, k); }
  }

  /** Links lead forward, none leads to the root, and exactly one to every other node. */
  ghost predicate TreeShaped(nodes: seq<JNode>) {
    Forward(nodes, 0, |nodes|) && forall n: nat :: InLinks(nodes, n) == if 0 < n < |nodes| then 1 else 0
  }

  lemma LinkForward(nodes: seq<JNode>, k: nat, n: nat)
    requires TreeShaped(nodes) && k < |nodes| && LinksTo(nodes[k], n)
    ensures k < n
  {
  }

  lemma {:induction false} PathTo(nodes: seq<JNode>, n: nat) returns (p: seq<nat>)
    requires TreeShaped(nodes) && n < |nodes|
    ensures IsPath(nodes, p, n)
    decreases n
  {
    if n == 0 {
      p := [0];
    } else {
      var k := SomeLink(nodes, n);
      LinkForward(nodes, k, n);
      p := PathTo(nodes, k);
      p := p + [n];
    }
  }

  lemma PathStep(nodes: seq<JNode>, p: seq<nat>, n: nat)
    requires TreeShaped(nodes) && IsPath(nodes, p, n)
    ensures n == 0 ==> p == [0]
    ensures n > 0 ==> |p| > 1 && IsPath(nodes, p[..|p| - 1], p[|p| - 2]) && LinksTo(nodes[p[|p| - 2]], n)
  {
    if |p| > 1 {
      assert LinksTo(nodes[p[|p| - 2]], p[|p| - 1]);
      LinkForward(nodes, p[|p| - 2], n);
    }
  }

  lemma {:induction false} OnePath(nodes: seq<JNode>, p: seq<nat>, q: seq<nat>, n: nat)
    requires TreeShaped(nodes) && IsPath(nodes, p, n) && IsPath(nodes, q, n)
    ensures p == q
    decreases n
  {
    PathStep(nodes, p, n);
    PathStep(nodes, q, n);
    if n > 0 {
      var j, k := p[|p| - 2], q[|q| - 2];
      OneLink(nodes, n, j, k);
      LinkForward(nodes, k, n);
      OnePath(nodes, p[..|p| - 1], q[..|q| - 1], k);
      assert p == p[..|p| - 1] + [n] && q == q[..|q| - 1] + [n];
    }
  }

  /** After a successful parse every node of the document is reached from the root, in exactly
      one way. */
  lemma ReachedOnce(t: string, n: nat)
    requires Parse(t).Some? && n < Size(Parse(t).value)
    ensures var nodes := Image(Parse(t).value, 0, -1);
            (exists p: seq<nat> :: IsPath(nodes, p, n))
            && forall p: seq<nat>, q: seq<nat> :: IsPath(nodes, p, n) && IsPath(nodes, q, n) ==> p == q
  {
    var nodes := Image(Parse(t).value, 0, -1);
    forall k: nat ensures InLinks(nodes, k) == if 0 < k < |nodes| then 1 else 0 { ParsedIsTree(t, k); }
    ParsedIsTree(t, 0);
    var p := PathTo(nodes, n);
    forall p: seq<nat>, q: seq<nat> | IsPath(nodes, p, n) && IsPath(nodes, q, n) ensures p == q { OnePath(nodes, p, q, n); }
  }
}
