/** The memory image of a parse: the nodes of the pool in allocation order, linked by index.
    While containers are open, the `sibling` field of each holds the way back to its parent. */
module JsonLayout {
  import opened JsonText
  import opened JsonGrammar

  /** A null pointer is -1; u is the first word of the union, a value position or a child. */
  datatype JNode = JNode(sibling: int, name: int, typ: JType, u: int)

  function NamePos(name: Name): int { match name case NoName => -1 case Named(pos, _) => pos }

  /** The nodes of a tree placed at index i: preorder, with the given sibling link at its root. */
  function Image(tree: Tree, i: nat, sib: int): (r: seq<JNode>)
    ensures |r| == Size(tree) && r[0].sibling == sib
    decreases tree, 1
  {
    match tree
    case Scalar(name, typ, pos, _) => [JNode(sib, NamePos(name), typ, pos)]
    case Container(name, typ, kids) =>
      [JNode(sib, NamePos(name), typ, if kids == [] then -1 else i + 1)] + KidsImage(kids, i + 1, -1)
  }

  /** A chain of siblings from index i whose last link is `tail`. */
  function KidsImage(kids: seq<Tree>, i: nat, tail: int): (r: seq<JNode>)
    ensures |r| == SizeAll(kids)
    decreases kids, 0
  {
    if kids == [] then []
    else
      var init := kids[..|kids| - 1];
      KidsImage(init, i, i + SizeAll(init)) + Image(kids[|kids| - 1], i + SizeAll(init), tail)
  }

  /** A container node and its finished children; `open` says that one more child follows. */
  function FrameImage(f: Frame, i: nat, parent: int, open: bool): (r: seq<JNode>)
    ensures |r| == 1 + SizeAll(f.kids)
  {
    [JNode(parent, NamePos(f.name), f.typ, if f.kids == [] && !open then -1 else i + 1)]
    + KidsImage(f.kids, i + 1, if open then i + 1 + SizeAll(f.kids) else -1)
  }

  /** Index of the innermost open container, and of its parent. */
  function TopIndex(frames: seq<Frame>): nat
    requires frames != []
  {
    FramesSize(Init(frames))
  }

  function ParentIndex(frames: seq<Frame>): int
    requires frames != []
  {
    if |frames| == 1 then -1 else TopIndex(Init(frames))
  }

  /** Open containers that all have an open child. */
  function PathImage(frames: seq<Frame>): (r: seq<JNode>)
    ensures |r| == FramesSize(frames)
  {
    if frames == [] then []
    else PathImage(Init(frames)) + FrameImage(Last(frames), TopIndex(frames), ParentIndex(frames), true)
  }

  /** The pool when the containers in `frames` are open. */
  function StackImage(frames: seq<Frame>): (r: seq<JNode>)
    requires frames != []
    ensures |r| == FramesSize(frames)
  {
    PathImage(Init(frames)) + FrameImage(Last(frames), TopIndex(frames), ParentIndex(frames), false)
  }

  /** Index of the last child of the innermost container. */
  function LastKid(frames: seq<Frame>): nat
    requires frames != [] && Last(frames).kids != []
  {
    TopIndex(frames) + 1 + SizeAll(Init(Last(frames).kids))
  }

  /** `add` on node values: the new node, at index e, is linked behind the last child. */
  function Link(mem: seq<JNode>, obj: nat, last: nat, e: nat): (r: seq<JNode>)
    requires obj < |mem| && last < |mem|
    ensures |r| == |mem|
  {
    if mem[obj].u == -1 then mem[obj := mem[obj].(u := e)] else mem[last := mem[last].(sibling := e)]
  }

  lemma UpdateSuffix(pre: seq<JNode>, x: seq<JNode>, k: nat, v: JNode)
    requires k < |x|
    ensures (pre + x)[|pre| + k := v] == pre + x[k := v]
    ensures (pre + x)[|pre| + k] == x[k]
  {
  }

  lemma KidsSnoc(kids: seq<Tree>, i: nat, tail: int)
    requires kids != []
    ensures var k := SizeAll(Init(kids));
            KidsImage(kids, i, tail) == KidsImage(Init(kids), i, i + k) + Image(Last(kids), i + k, tail)
    ensures SizeAll(kids) == SizeAll(Init(kids)) + Size(Last(kids))
  {
  }

  lemma ResizeTail(kids: seq<Tree>, i: nat, a: int, b: int)
    requires kids != []
    ensures var k := SizeAll(Init(kids));
            k < SizeAll(kids) && KidsImage(kids, i, b) == KidsImage(kids, i, a)[k := KidsImage(kids, i, a)[k].(sibling := b)]
  {
    var init, last := Init(kids), Last(kids);
    var k := SizeAll(init);
    ResizeSibling(last, i + k, a, b);
    KidsSnoc(kids, i, a);
    KidsSnoc(kids, i, b);
    var pre, x := KidsImage(init, i, i + k), Image(last, i + k, a);
    UpdateSuffix(pre, x, 0, x[0].(sibling := b));
  }

  lemma ResizeSibling(tree: Tree, i: nat, a: int, b: int)
    ensures Image(tree, i, b) == Image(tree, i, a)[0 := Image(tree, i, a)[0].(sibling := b)]
  {
  }

  /** Growing a container by a child: the chain is extended and ends in null again. */
  lemma GrowFrame(f: Frame, kid: Tree, i: nat, parent: int)
    ensures FrameImage(Grow(f, kid), i, parent, false) ==
            FrameImage(f, i, parent, true) + Image(kid, i + 1 + SizeAll(f.kids), -1)
  {
    var kids := f.kids + [kid];
    assert kids[..|kids| - 1] == f.kids && kids[|kids| - 1] == kid;
  }

  /** Linking a node behind the children of one container. */
  lemma LinkFrame(f: Frame, i: nat, parent: int, last: nat)
    requires f.kids != [] ==> last == 1 + SizeAll(Init(f.kids))
    requires f.kids == [] ==> last == 0
    ensures last < 1 + SizeAll(f.kids)
    ensures Link(FrameImage(f, i, parent, false), 0, last, i + 1 + SizeAll(f.kids)) == FrameImage(f, i, parent, true)
  {
    if f.kids != [] {
      var e := i + 1 + SizeAll(f.kids);
      ResizeTail(f.kids, i + 1, -1, e);
      var root, x := [FrameImage(f, i, parent, false)[0]], KidsImage(f.kids, i + 1, -1);
      UpdateSuffix(root, x, last - 1, x[last - 1].(sibling := e));
    }
  }

  lemma LinkSuffix(pre: seq<JNode>, mem: seq<JNode>, last: nat, e: nat)
    requires mem != [] && last < |mem|
    ensures Link(pre + mem, |pre|, |pre| + last, e) == pre + Link(mem, 0, last, e)
  {
    UpdateSuffix(pre, mem, 0, mem[0].(u := e));
    UpdateSuffix(pre, mem, last, mem[last].(sibling := e));
  }

  lemma LinkStack(pre: seq<JNode>, f: Frame, parent: int, last: nat)
    requires last < |pre| + 1 + SizeAll(f.kids)
    requires f.kids != [] ==> last == |pre| + 1 + SizeAll(Init(f.kids))
    ensures Link(pre + FrameImage(f, |pre|, parent, false), |pre|, last, |pre| + 1 + SizeAll(f.kids))
         == pre + FrameImage(f, |pre|, parent, true)
  {
    var rel := if f.kids == [] then 0 else 1 + SizeAll(Init(f.kids));
    LinkFrame(f, |pre|, parent, rel);
    LinkBehind(pre, FrameImage(f, |pre|, parent, false), rel, last, |pre| + 1 + SizeAll(f.kids));
  }

  /** `add` for the innermost container: every open container now has an open child. */
  lemma LinkTop(frames: seq<Frame>, last: nat)
    requires frames != [] && last < FramesSize(frames)
    requires Last(frames).kids != [] ==> last == LastKid(frames)
    ensures TopIndex(frames) < FramesSize(frames)
    ensures Link(StackImage(frames), TopIndex(frames), last, FramesSize(frames)) == PathImage(frames)
  {
    var pre, f, par := PathImage(Init(frames)), Last(frames), ParentIndex(frames);
    LinkStack(pre, f, par, last);
    assert StackImage(frames) == pre + FrameImage(f, |pre|, par, false);
    assert PathImage(frames) == pre + FrameImage(f, |pre|, par, true);
  }

  lemma LinkBehind(pre: seq<JNode>, mem: seq<JNode>, rel: nat, last: nat, e: nat)
    requires rel < |mem| && last < |pre| + |mem| && (mem[0].u != -1 ==> last == |pre| + rel)
    ensures Link(pre + mem, |pre|, last, e) == pre + Link(mem, 0, rel, e)
  {
    LinkSuffix(pre, mem, rel, e);
    var all: seq<JNode> := pre + mem;
    assert all[|pre|] == mem[0];
  }

  /** A finished value: linked, and its sibling left null. */
  lemma PushValue(frames: seq<Frame>, kid: Tree)
    requires frames != []
    ensures StackImage(AddKid(frames, kid)) == PathImage(frames) + Image(kid, FramesSize(frames), -1)
  {
    var i, par, pre := TopIndex(frames), ParentIndex(frames), PathImage(Init(frames));
    var next := AddKid(frames, kid);
    GrowFrame(Last(frames), kid, i, par);
    var f, k := FrameImage(Last(frames), i, par, true), Image(kid, FramesSize(frames), -1);
    var grown := FrameImage(Grow(Last(frames), kid), i, par, false);
    assert StackImage(next) == pre + grown by { assert Init(next) == Init(frames); }
    assert grown == f + k;
    assert pre + (f + k) == (pre + f) + k;
  }

  /** A container that opens: its sibling is the way back to its parent. */
  lemma PushOpen(frames: seq<Frame>, name: Name, typ: JType)
    requires frames != []
    ensures StackImage(frames + [Frame(name, typ, [])]) ==
            PathImage(frames) + [JNode(TopIndex(frames), NamePos(name), typ, -1)]
  {
    assert Init(frames + [Frame(name, typ, [])]) == frames;
  }

  /** A container that closes: clearing the way back makes it an ordinary last child. */
  lemma PopClosed(frames: seq<Frame>)
    requires |frames| > 1
    ensures TopIndex(frames) < |StackImage(frames)|
    ensures var mem, obj := StackImage(frames), TopIndex(frames);
            mem[obj].sibling == TopIndex(Init(frames)) &&
            mem[obj := mem[obj].(sibling := -1)] == StackImage(AddKid(Init(frames), Closed(Last(frames))))
  {
    var init, top := Init(frames), Last(frames);
    var pre, i := PathImage(init), FramesSize(init);
    PushValue(init, Closed(top));
    var a, b := FrameImage(top, i, TopIndex(init), false), FrameImage(top, i, -1, false);
    assert b == a[0 := a[0].(sibling := -1)];
    assert b == Image(Closed(top), i, -1);
  }

  /** When the outermost container closes, no way back remains anywhere. */
  lemma RootImage(f: Frame)
    ensures StackImage([f]) == Image(Closed(f), 0, -1)
  {
  }

  // ----- the last_child words

  /** Each of these open containers has the next one, or the node to come, as its last child. */
  ghost predicate PathLinks(frames: seq<Frame>, last: seq<int>) {
    frames == [] ||
    (PathLinks(Init(frames), last) && TopIndex(frames) < |last| && last[TopIndex(frames)] == FramesSize(frames))
  }

  ghost predicate LastLinks(frames: seq<Frame>, last: seq<int>)
    requires frames != []
  {
    && PathLinks(Init(frames), last)
    && (Last(frames).kids != [] ==> TopIndex(frames) < |last| && last[TopIndex(frames)] == LastKid(frames))
  }

  lemma {:induction false} PathLinksFrame(frames: seq<Frame>, last: seq<int>, k: nat, v: int)
    requires PathLinks(frames, last) && FramesSize(frames) <= k < |last|
    ensures PathLinks(frames, last[k := v])
  {
    if frames != [] { PathLinksFrame(Init(frames), last, k, v); }
  }

  lemma LastLinksPush(frames: seq<Frame>, last: seq<int>, f: Frame)
    requires frames != [] && LastLinks(frames, last) && f.kids == [] && TopIndex(frames) < |last|
    ensures LastLinks(frames + [f], last[TopIndex(frames) := FramesSize(frames)])
  {
    assert Init(frames + [f]) == frames;
    PathLinksFrame(Init(frames), last, TopIndex(frames), FramesSize(frames));
  }

  lemma LastLinksAdd(frames: seq<Frame>, last: seq<int>, kid: Tree)
    requires frames != [] && LastLinks(frames, last) && TopIndex(frames) < |last|
    ensures LastLinks(AddKid(frames, kid), last[TopIndex(frames) := FramesSize(frames)])
  {
    var next := AddKid(frames, kid);
    assert Init(Last(next).kids) == Last(frames).kids;
    PathLinksFrame(Init(frames), last, TopIndex(frames), FramesSize(frames));
  }

  lemma LastLinksPop(frames: seq<Frame>, last: seq<int>)
    requires |frames| > 1 && LastLinks(frames, last)
    ensures LastLinks(AddKid(Init(frames), Closed(Last(frames))), last)
  {
    var init, next := Init(frames), AddKid(Init(frames), Closed(Last(frames)));
    assert Init(Last(next).kids) == Last(init).kids;
  }
}
