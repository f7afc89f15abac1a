/** The language lib/tiny-json.c accepts, as a recursive-descent parser that builds a tree,
    and the same parse cut at any point into the containers still open. */
module JsonGrammar {
  import opened Options
  import opened JsonText

  datatype Name = NoName | Named(pos: nat, text: string)

  datatype Tree =
    | Scalar(name: Name, typ: JType, pos: nat, text: string)
    | Container(name: Name, typ: JType, kids: seq<Tree>)

  function Close(typ: JType): char { if typ == OBJ then '}' else ']' }

  function OpenType(c: char): JType { if c == '{' then OBJ else ARRAY }

  predicate Opens(c: char) { c == '{' || c == '[' }

  /** The value behind a colon, blanks around it skipped. */
  function ValueStart(t: string, e: nat): (r: Option<nat>)
    requires e <= |t|
    ensures r.Some? ==> e <= r.value < |t|
  {
    match GoBlank(t, e)
    case None => None
    case Some(c) => if t[c] != ':' then None else GoBlank(t, c + 1)
  }

  /** Name of a property, if its container has names, and the position of its value. */
  function HeadAt(t: string, p: nat, typ: JType): (r: Option<(Name, nat)>)
    requires p < |t|
    ensures r.Some? ==> p <= r.value.1 < |t|
    ensures r.Some? && typ != ARRAY ==> !EndOfBlock(t[p])
    ensures r.Some? && r.value.0.Named? ==> p < r.value.0.pos && (Clean(t) ==> Clean(r.value.0.text))
    ensures r.Some? && r.value.0.NoName? ==> r.value.1 == p
  {
    if typ == ARRAY then Some((NoName, p))
    else if t[p] != '\"' then None
    else match StringAt(t, p + 1)
      case None => None
      case Some((s, e)) =>
        match ValueStart(t, e) case None => None case Some(v) => Some((Named(p + 1, s), v))
  }

  /** The value at v: a container or a scalar, and the position behind it. */
  function ValueAt(t: string, v: nat, name: Name): (r: Option<(Tree, nat)>)
    requires v < |t|
    ensures r.Some? ==> v < r.value.1 <= |t|
    decreases |t| - v, 0
  {
    if Opens(t[v]) then
      match Items(t, v + 1, OpenType(t[v]))
      case None => None
      case Some((kids, e)) => Some((Container(name, OpenType(t[v]), kids), e))
    else
      match ScalarAt(t, v)
      case None => None
      case Some(k) => Some((Scalar(name, k.typ, k.pos, k.text), k.next))
  }

  /** The rest of a container's body from p: its values, and the position after its bracket.
      Commas may be missing, repeated or trailing. */
  function Items(t: string, p: nat, typ: JType): (r: Option<(seq<Tree>, nat)>)
    requires p <= |t|
    ensures r.Some? ==> p < r.value.1 <= |t|
    decreases |t| - p, 1
  {
    match GoBlank(t, p)
    case None => None
    case Some(q) =>
      if t[q] == ',' then Items(t, q + 1, typ)
      else if t[q] == Close(typ) then Some(([], q + 1))
      else match HeadAt(t, q, typ)
        case None => None
        case Some((name, v)) =>
          match ValueAt(t, v, name)
          case None => None
          case Some((tree, e)) => Follow(tree, Items(t, e, typ))
  }

  function Follow(first: Tree, rest: Option<(seq<Tree>, nat)>): Option<(seq<Tree>, nat)> {
    match rest case None => None case Some((kids, e)) => Some(([first] + kids, e))
  }

  /** The document: blanks, then one container; whatever follows it is ignored. */
  function Parse(t: string): Option<Tree> {
    match GoBlank(t, 0)
    case None => None
    case Some(p) =>
      if !Opens(t[p]) then None
      else match Items(t, p + 1, OpenType(t[p]))
        case None => None
        case Some((kids, e)) => Some(Container(NoName, OpenType(t[p]), kids))
  }

  // ----- the parse with open containers

  datatype Frame = Frame(name: Name, typ: JType, kids: seq<Tree>)

  function Last<T>(s: seq<T>): T
    requires s != []
  {
    s[|s| - 1]
  }

  function Init<T>(s: seq<T>): (r: seq<T>)
    requires s != []
    ensures |r| == |s| - 1
  {
    s[..|s| - 1]
  }

  function Closed(f: Frame): Tree { Container(f.name, f.typ, f.kids) }

  function Grow(f: Frame, kid: Tree): Frame { f.(kids := f.kids + [kid]) }

  function AddKid(frames: seq<Frame>, kid: Tree): (r: seq<Frame>)
    requires frames != []
    ensures |r| == |frames| && Init(r) == Init(frames) && Last(r) == Grow(Last(frames), kid)
  {
    Init(frames) + [Grow(Last(frames), kid)]
  }

  /** What the whole parse yields when, at p, the containers in `frames` are open (innermost
      last) and hold the values parsed so far. */
  function Finish(t: string, frames: seq<Frame>, p: nat): (r: Option<Tree>)
    requires frames != [] && p <= |t|
    decreases |frames|, 1
  {
    FinishWith(t, frames, Items(t, p, Last(frames).typ))
  }

  /** The same, given the rest of the innermost container. */
  function FinishWith(t: string, frames: seq<Frame>, rest: Option<(seq<Tree>, nat)>): (r: Option<Tree>)
    requires frames != [] && (rest.Some? ==> rest.value.1 <= |t|)
    decreases |frames|, 0
  {
    match rest
    case None => None
    case Some((kids, e)) =>
      var tree := Container(Last(frames).name, Last(frames).typ, Last(frames).kids + kids);
      if |frames| == 1 then Some(tree) else Finish(t, AddKid(Init(frames), tree), e)
  }

  lemma FinishComma(t: string, frames: seq<Frame>, p: nat, q: nat)
    requires frames != [] && p <= |t| && GoBlank(t, p) == Some(q) && t[q] == ','
    ensures Finish(t, frames, p) == Finish(t, frames, q + 1)
  {
  }

  /** Reading the closing bracket closes the innermost container. */
  lemma FinishClose(t: string, frames: seq<Frame>, p: nat, q: nat)
    requires frames != [] && p <= |t| && GoBlank(t, p) == Some(q) && t[q] == Close(Last(frames).typ)
    ensures Finish(t, frames, p) ==
            if |frames| == 1 then Some(Closed(Last(frames))) else Finish(t, AddKid(Init(frames), Closed(Last(frames))), q + 1)
  {
    assert Last(frames).kids + [] == Last(frames).kids;
  }

  /** At q an item of the innermost container starts. */
  ghost predicate ItemStarts(t: string, frames: seq<Frame>, p: nat, q: nat) {
    && frames != [] && p <= |t| && GoBlank(t, p) == Some(q)
    && t[q] != ',' && t[q] != Close(Last(frames).typ)
  }

  /** A value read first is a value added to the innermost container. */
  lemma FinishAdd(t: string, frames: seq<Frame>, tree: Tree, rest: Option<(seq<Tree>, nat)>)
    requires frames != [] && (rest.Some? ==> rest.value.1 <= |t|)
    ensures FinishWith(t, frames, Follow(tree, rest)) == FinishWith(t, AddKid(frames, tree), rest)
  {
    var top, next := Last(frames), AddKid(frames, tree);
    match rest {
      case None =>
      case Some((kids, _)) => assert top.kids + ([tree] + kids) == Last(next).kids + kids;
    }
  }

  lemma ItemsScalar(t: string, p: nat, q: nat, typ: JType, name: Name, v: nat, k: Token)
    requires p <= |t| && GoBlank(t, p) == Some(q) && t[q] != ',' && t[q] != Close(typ)
    requires HeadAt(t, q, typ) == Some((name, v)) && !Opens(t[v]) && ScalarAt(t, v) == Some(k)
    ensures Items(t, p, typ) == Follow(Scalar(name, k.typ, k.pos, k.text), Items(t, k.next, typ))
  {
  }

  lemma ItemsUnclosed(t: string, p: nat, q: nat, typ: JType, name: Name, v: nat)
    requires p <= |t| && GoBlank(t, p) == Some(q) && t[q] != ',' && t[q] != Close(typ)
    requires HeadAt(t, q, typ) == Some((name, v)) && Opens(t[v]) && Items(t, v + 1, OpenType(t[v])) == None
    ensures Items(t, p, typ) == None
  {
  }

  lemma ItemsOpen(t: string, p: nat, q: nat, typ: JType, name: Name, v: nat, kids: seq<Tree>, e: nat)
    requires p <= |t| && GoBlank(t, p) == Some(q) && t[q] != ',' && t[q] != Close(typ)
    requires HeadAt(t, q, typ) == Some((name, v)) && Opens(t[v]) && Items(t, v + 1, OpenType(t[v])) == Some((kids, e))
    ensures Items(t, p, typ) == Follow(Container(name, OpenType(t[v]), kids), Items(t, e, typ))
  {
  }

  lemma FinishScalar(t: string, frames: seq<Frame>, p: nat, q: nat, name: Name, v: nat, k: Token)
    requires ItemStarts(t, frames, p, q) && HeadAt(t, q, Last(frames).typ) == Some((name, v))
    requires !Opens(t[v]) && ScalarAt(t, v) == Some(k)
    ensures Finish(t, frames, p) == Finish(t, AddKid(frames, Scalar(name, k.typ, k.pos, k.text)), k.next)
  {
    ItemsScalar(t, p, q, Last(frames).typ, name, v, k);
    FinishAdd(t, frames, Scalar(name, k.typ, k.pos, k.text), Items(t, k.next, Last(frames).typ));
  }

  lemma FinishPush(t: string, frames: seq<Frame>, f: Frame, p: nat)
    requires frames != [] && f.kids == [] && p <= |t|
    ensures Items(t, p, f.typ).None? ==> Finish(t, frames + [f], p).None?
    ensures Items(t, p, f.typ).Some? ==>
              Finish(t, frames + [f], p)
              == Finish(t, AddKid(frames, Container(f.name, f.typ, Items(t, p, f.typ).value.0)), Items(t, p, f.typ).value.1)
  {
    assert Init(frames + [f]) == frames && Last(frames + [f]) == f;
    if Items(t, p, f.typ).Some? {
      var kids := Items(t, p, f.typ).value.0;
      assert f.kids + kids == kids;
    }
  }

  /** Descending into a container is finishing it first, then its parent. */
  lemma FinishOpen(t: string, frames: seq<Frame>, p: nat, q: nat, name: Name, v: nat)
    requires ItemStarts(t, frames, p, q) && HeadAt(t, q, Last(frames).typ) == Some((name, v)) && Opens(t[v])
    ensures Finish(t, frames, p) == Finish(t, frames + [Frame(name, OpenType(t[v]), [])], v + 1)
  {
    var typ := OpenType(t[v]);
    FinishPush(t, frames, Frame(name, typ, []), v + 1);
    match Items(t, v + 1, typ) {
      case None => ItemsUnclosed(t, p, q, Last(frames).typ, name, v);
      case Some((kids, e)) =>
        ItemsOpen(t, p, q, Last(frames).typ, name, v, kids, e);
        FinishAdd(t, frames, Container(name, typ, kids), Items(t, e, Last(frames).typ));
    }
  }

  lemma FinishFails(t: string, frames: seq<Frame>, p: nat, q: nat)
    requires ItemStarts(t, frames, p, q)
    requires match HeadAt(t, q, Last(frames).typ)
             case None => true
             case Some((_, v)) => !Opens(t[v]) && ScalarAt(t, v).None?
    ensures Finish(t, frames, p).None?
  {
    match HeadAt(t, q, Last(frames).typ) {
      case None =>
      case Some((name, v)) => assert ValueAt(t, v, name).None?;
    }
  }

  // ----- node counts

  function Size(tree: Tree): (r: nat)
    ensures r >= 1
    decreases tree, 1
  {
    match tree case Scalar(_, _, _, _) => 1 case Container(_, _, kids) => 1 + SizeAll(kids)
  }

  function SizeAll(kids: seq<Tree>): nat
    decreases kids, 0
  {
    if kids == [] then 0 else SizeAll(kids[..|kids| - 1]) + Size(kids[|kids| - 1])
  }

  function FramesSize(frames: seq<Frame>): nat {
    if frames == [] then 0 else FramesSize(Init(frames)) + 1 + SizeAll(Last(frames).kids)
  }

  lemma {:induction false} SizeAllConcat(a: seq<Tree>, b: seq<Tree>)
    ensures SizeAll(a + b) == SizeAll(a) + SizeAll(b)
    decreases |b|
  {
    if b == [] {
      assert a + b == a;
    } else {
      SizeAllConcat(a, Init(b));
      assert (a + b)[..|a + b| - 1] == a + Init(b);
    }
  }

  lemma AddKidSize(frames: seq<Frame>, kid: Tree)
    requires frames != []
    ensures FramesSize(AddKid(frames, kid)) == FramesSize(frames) + Size(kid)
  {
    SizeAllConcat(Last(frames).kids, [kid]);
    assert SizeAll([kid]) == Size(kid) by { assert [kid][..0] == []; }
  }

  /** The finished tree has at least the nodes already parsed. */
  lemma {:induction false} FinishSize(t: string, frames: seq<Frame>, p: nat)
    requires frames != [] && p <= |t| && Finish(t, frames, p).Some?
    ensures Size(Finish(t, frames, p).value) >= FramesSize(frames)
    decreases |frames|
  {
    var top := Last(frames);
    var (kids, e) := Items(t, p, top.typ).value;
    assert Finish(t, frames, p) == FinishWith(t, frames, Some((kids, e)));
    var tree := Container(top.name, top.typ, top.kids + kids);
    SizeAllConcat(top.kids, kids);
    if |frames| > 1 {
      AddKidSize(Init(frames), tree);
      FinishSize(t, AddKid(Init(frames), tree), e);
    }
  }

  /** Where an item starts, one more node is needed than the open containers hold. */
  lemma ItemNeedsNode(t: string, frames: seq<Frame>, p: nat, q: nat)
    requires ItemStarts(t, frames, p, q) && Finish(t, frames, p).Some?
    ensures Size(Finish(t, frames, p).value) > FramesSize(frames)
  {
    var (name, v) := HeadAt(t, q, Last(frames).typ).value;
    assert ValueAt(t, v, name).Some?;
    if Opens(t[v]) {
      FinishOpen(t, frames, p, q, name, v);
      var next := frames + [Frame(name, OpenType(t[v]), [])];
      assert Init(next) == frames;
      FinishSize(t, next, v + 1);
    } else {
      var k := ScalarAt(t, v).value;
      FinishScalar(t, frames, p, q, name, v, k);
      var tree := Scalar(name, k.typ, k.pos, k.text);
      AddKidSize(frames, tree);
      FinishSize(t, AddKid(frames, tree), k.next);
    }
  }
}
