/** json_create of lib/tiny-json.c: one loop, no recursion, the stack of open containers kept
    in the nodes themselves, the text unescaped and cut in its own buffer. */
module JsonParser {
  import opened Options
  import opened JsonText
  import opened JsonGrammar
  import opened JsonLayout
  import opened JsonLexer

  // ----- the tokens of a tree, in reading order

  datatype Piece = Piece(pos: nat, text: string)

  function NameTokens(name: Name): seq<Piece> {
    match name case NoName => [] case Named(pos, text) => [Piece(pos, text)]
  }

  function Tokens(tree: Tree): seq<Piece>
    decreases tree, 1
  {
    match tree
    case Scalar(name, _, pos, text) => NameTokens(name) + [Piece(pos, text)]
    case Container(name, _, kids) => NameTokens(name) + KidsTokens(kids)
  }

  function KidsTokens(kids: seq<Tree>): seq<Piece>
    decreases kids, 0
  {
    if kids == [] then [] else KidsTokens(kids[..|kids| - 1]) + Tokens(kids[|kids| - 1])
  }

  function FramesTokens(frames: seq<Frame>): seq<Piece> {
    if frames == [] then [] else FramesTokens(Init(frames)) + Tokens(Closed(Last(frames)))
  }

  lemma KidsTokensSnoc(kids: seq<Tree>, kid: Tree)
    ensures KidsTokens(kids + [kid]) == KidsTokens(kids) + Tokens(kid)
  {
    var all := kids + [kid];
    assert all[..|all| - 1] == kids;
  }

  lemma TokensAdd(frames: seq<Frame>, kid: Tree)
    requires frames != []
    ensures FramesTokens(AddKid(frames, kid)) == FramesTokens(frames) + Tokens(kid)
  {
    var f, next := Last(frames), AddKid(frames, kid);
    KidsTokensSnoc(f.kids, kid);
    var a, b, c, d := FramesTokens(Init(frames)), NameTokens(f.name), KidsTokens(f.kids), Tokens(kid);
    assert FramesTokens(next) == a + (b + (c + d));
    assert a + (b + (c + d)) == a + (b + c) + d;
  }

  lemma TokensPush(frames: seq<Frame>, name: Name, typ: JType)
    requires frames != []
    ensures FramesTokens(frames + [Frame(name, typ, [])]) == FramesTokens(frames) + NameTokens(name)
  {
    assert Init(frames + [Frame(name, typ, [])]) == frames;
    assert Tokens(Container(name, typ, [])) == NameTokens(name);
  }

  lemma TokensPop(frames: seq<Frame>)
    requires |frames| > 1
    ensures FramesTokens(AddKid(Init(frames), Closed(Last(frames)))) == FramesTokens(frames)
  {
    TokensAdd(Init(frames), Closed(Last(frames)));
  }

  /** A token behind the cursor: its decoded text is in place and terminated, or its terminator
      is the bracket at the cursor, which is about to be overwritten. */
  ghost predicate Settled(buf: seq<char>, t: string, p: nat, k: Piece) {
    && k.pos + |k.text| <= p <= |t| < |buf| && Clean(k.text)
    && buf[k.pos..k.pos + |k.text|] == k.text
    && (if k.pos + |k.text| < p then buf[k.pos + |k.text|] == NUL else p < |t| && EndOfBlock(t[p]))
  }

  ghost predicate AllSettled(buf: seq<char>, t: string, p: nat, ks: seq<Piece>) {
    forall n :: 0 <= n < |ks| ==> Settled(buf, t, p, ks[n])
  }

  /** Tokens stay settled while the cursor moves over text that no token waits for. */
  lemma SettledAdvance(was: seq<char>, now: seq<char>, t: string, p: nat, q: nat, next: nat, ks: seq<Piece>)
    requires AllSettled(was, t, p, ks) && !EndOfBlock(At(t, p))
    requires p <= q <= next <= |t| < |was| && SameOutside(was, now, q, next)
    ensures AllSettled(now, t, next, ks)
  {
    forall n | 0 <= n < |ks| ensures Settled(now, t, next, ks[n]) {
      assert Settled(was, t, p, ks[n]);
    }
  }

  lemma SettledStored(was: seq<char>, now: seq<char>, t: string, p: nat, pos: nat, text: string, next: nat, ks: seq<Piece>)
    requires AllSettled(was, t, p, ks) && !EndOfBlock(At(t, p)) && Stored(was, now, pos, text, next)
    requires p <= pos && next <= |t| < |was| && Clean(text)
    requires pos + |text| == next ==> EndOfBlock(At(t, next))
    ensures AllSettled(now, t, next, ks + [Piece(pos, text)])
  {
    SettledAdvance(was, now, t, p, pos, next, ks);
  }

  /** Overwriting the bracket at the cursor terminates whatever waited for it. */
  lemma SettledClose(was: seq<char>, t: string, p: nat, q: nat, ks: seq<Piece>)
    requires AllSettled(was, t, p, ks) && p <= q < |t| < |was| && (EndOfBlock(At(t, p)) ==> q == p)
    ensures AllSettled(was[q := NUL], t, q + 1, ks)
  {
    var now := was[q := NUL];
    forall n | 0 <= n < |ks| ensures Settled(now, t, q + 1, ks[n]) {
      assert Settled(was, t, p, ks[n]);
    }
  }

  // ----- the pool

  class Pool {
    const mem: array<JNode>
    /** The second word of the union, u.c.last_child. */
    const last: array<int>
    const qty: nat
    var nextFree: nat

    ghost predicate Shape() { mem.Length == last.Length == qty }

    constructor (m: array<JNode>, l: array<int>)
      requires m.Length == l.Length
      ensures mem == m && last == l && qty == m.Length && Shape()
    {
      mem, last, qty, nextFree := m, l, m.Length, 0;
    }

    method Init() returns (root: nat)
      modifies this`nextFree
      ensures root == 0 && nextFree == 1
    {
      nextFree := 1;
      root := 0;
    }

    method Alloc() returns (i: int)
      modifies this`nextFree
      ensures i == if old(nextFree) >= qty then -1 else old(nextFree)
      ensures nextFree == if old(nextFree) >= qty then old(nextFree) else old(nextFree) + 1
    {
      if nextFree >= qty { return -1; }
      i := nextFree;
      nextFree := nextFree + 1;
    }

    /** add */
    method Add(obj: nat, property: nat)
      requires Shape() && obj < property < qty
      requires mem[obj].u != -1 ==> 0 <= last[obj] < property
      modifies mem, last
      ensures mem[..property] == Link(old(mem[..property]), obj, if old(mem[obj].u) != -1 then old(last[obj]) else 0, property)
      ensures mem[property] == old(mem[property]).(sibling := -1)
      ensures last[..] == old(last[..])[obj := property]
    {
      mem[property] := mem[property].(sibling := -1);
      if mem[obj].u == -1 {
        mem[obj] := mem[obj].(u := property);
        last[obj] := property;
      } else {
        mem[last[obj]] := mem[last[obj]].(sibling := property);
        last[obj] := property;
      }
    }
  }

  // ----- the loop invariant

  /** The nodes allocated so far, their last-child words and the current container. */
  ghost predicate Linked(frames: seq<Frame>, mem: seq<JNode>, last: seq<int>, obj: int, free: nat) {
    && frames != [] && |mem| == |last| && free == FramesSize(frames) <= |mem|
    && obj == TopIndex(frames) && mem[..free] == StackImage(frames) && LastLinks(frames, last)
  }

  /** The text ahead is untouched and the tokens behind are in place. */
  ghost predicate Reading(frames: seq<Frame>, buf: seq<char>, t: string, p: nat) {
    Unread(buf, t, p) && AllSettled(buf, t, p, FramesTokens(frames))
  }

  lemma TopNode(frames: seq<Frame>)
    requires frames != []
    ensures TopIndex(frames) < FramesSize(frames)
    ensures var n := StackImage(frames)[TopIndex(frames)];
            n.typ == Last(frames).typ && n.sibling == ParentIndex(frames) && (n.u == -1 <==> Last(frames).kids == [])
    ensures Last(frames).kids != [] ==> LastKid(frames) < FramesSize(frames)
  {
    var f := FrameImage(Last(frames), TopIndex(frames), ParentIndex(frames), false);
    UpdateSuffix(PathImage(Init(frames)), f, 0, f[0]);
  }

  /** The new node linked behind the children of the current container. */
  method LinkProperty(pool: Pool, obj: nat, property: nat, ghost frames: seq<Frame>)
    requires pool.Shape() && property < pool.qty
    requires Linked(frames, pool.mem[..], pool.last[..], obj, property)
    modifies pool.mem, pool.last
    ensures pool.mem[..property] == PathImage(frames)
    ensures pool.mem[property] == old(pool.mem[property]).(sibling := -1)
    ensures pool.last[..] == old(pool.last[..])[obj := property]
  {
    TopNode(frames);
    ghost var img := StackImage(frames);
    assert pool.mem[obj] == img[obj];
    LinkTop(frames, if Last(frames).kids != [] then LastKid(frames) else 0);
    pool.Add(obj, property);
  }

  /** A scalar property: the code of lines 357-358 and the fields its reader sets. */
  method PushScalar(pool: Pool, obj: nat, property: nat, name: int, typ: JType, pos: nat,
                    ghost frames: seq<Frame>, ghost kid: Tree)
    requires pool.Shape() && property < pool.qty
    requires Linked(frames, pool.mem[..], pool.last[..], obj, property)
    requires kid.Scalar? && name == NamePos(kid.name) && typ == kid.typ && pos == kid.pos
    modifies pool.mem, pool.last
    ensures Linked(AddKid(frames, kid), pool.mem[..], pool.last[..], obj, property + 1)
  {
    LinkProperty(pool, obj, property, frames);
    pool.mem[property] := pool.mem[property].(name := name, typ := typ, u := pos);
    PushValue(frames, kid);
    AddKidSize(frames, kid);
    TopNode(frames);
    LastLinksAdd(frames, old(pool.last[..]), kid);
    assert pool.mem[..property + 1] == pool.mem[..property] + [pool.mem[property]];
  }

  /** An opening bracket (lines 360-373): the property becomes the current container. */
  method PushContainer(pool: Pool, obj: nat, property: nat, name: int, typ: JType,
                       ghost frames: seq<Frame>, ghost f: Frame)
    requires pool.Shape() && property < pool.qty
    requires Linked(frames, pool.mem[..], pool.last[..], obj, property)
    requires f.kids == [] && name == NamePos(f.name) && typ == f.typ
    modifies pool.mem, pool.last
    ensures Linked(frames + [f], pool.mem[..], pool.last[..], property, property + 1)
  {
    LinkProperty(pool, obj, property, frames);
    pool.mem[property] := pool.mem[property].(name := name, typ := typ, u := -1, sibling := obj);
    PushOpen(frames, f.name, typ);
    TopNode(frames);
    LastLinksPush(frames, old(pool.last[..]), f);
    assert Init(frames + [f]) == frames;
    assert pool.mem[..property + 1] == pool.mem[..property] + [pool.mem[property]];
  }

  /** A closing bracket (lines 342-345): back to the parent, if there is one. */
  method PopContainer(pool: Pool, obj: nat, ghost frames: seq<Frame>) returns (parent: int)
    requires pool.Shape() && pool.nextFree <= pool.qty
    requires Linked(frames, pool.mem[..], pool.last[..], obj, pool.nextFree)
    modifies pool.mem
    ensures parent == ParentIndex(frames)
    ensures |frames| == 1 ==> pool.mem[..] == old(pool.mem[..])
    ensures |frames| > 1 ==>
              Linked(AddKid(Init(frames), Closed(Last(frames))), pool.mem[..], pool.last[..], parent, pool.nextFree)
  {
    TopNode(frames);
    ghost var img := StackImage(frames);
    assert pool.mem[obj] == img[obj];
    parent := pool.mem[obj].sibling;
    if parent != -1 {
      PopClosed(frames);
      LastLinksPop(frames, pool.last[..]);
      AddKidSize(Init(frames), Closed(Last(frames)));
      pool.mem[obj] := pool.mem[obj].(sibling := -1);
      assert pool.mem[..pool.nextFree] == img[obj := img[obj].(sibling := -1)];
    }
  }

  /** What is known between two iterations of objValue's loop. */
  ghost predicate Between(frames: seq<Frame>, buf: seq<char>, t: string, p: nat,
                          mem: seq<JNode>, last: seq<int>, obj: int, free: nat) {
    Linked(frames, mem, last, obj, free) && Reading(frames, buf, t, p)
  }

  // ----- one item

  lemma NotWaiting(t: string, p: nat, q: nat)
    requires p <= |t| && GoBlank(t, p) == Some(q) && !EndOfBlock(t[q])
    ensures !EndOfBlock(At(t, p))
  {
  }

  lemma ScalarEnds(t: string, v: nat)
    requires v < |t| && ScalarAt(t, v).Some?
    ensures var k := ScalarAt(t, v).value; k.pos + |k.text| == k.next ==> EndOfBlock(At(t, k.next))
  {
  }

  /** The buffer after the name of an item was read, the cursor being at its value. */
  ghost predicate NameRead(was: seq<char>, now: seq<char>, name: Name, v: nat) {
    match name
    case NoName => now == was
    case Named(pos, text) => pos + |text| < v && Stored(was, now, pos, text, v)
  }

  lemma SettledName(was: seq<char>, now: seq<char>, t: string, p: nat, q: nat, name: Name, v: nat, ks: seq<Piece>)
    requires Unread(was, t, p) && AllSettled(was, t, p, ks) && GoBlank(t, p) == Some(q) && !EndOfBlock(t[q])
    requires q <= v <= |t| && NameRead(was, now, name, v)
    requires name.Named? ==> q < name.pos && Clean(name.text)
    ensures Unread(now, t, v) && AllSettled(now, t, v, ks + NameTokens(name))
  {
    NotWaiting(t, p, q);
    match name {
      case NoName =>
        SettledAdvance(was, now, t, p, q, v, ks);
        assert ks + [] == ks;
      case Named(pos, text) =>
        SettledStored(was, now, t, p, pos, text, v, ks);
        UnreadLater(was, now, t, p, pos, v);
    }
  }

  /** Reading on after a scalar value. */
  lemma ReadScalar(frames: seq<Frame>, mid: seq<char>, now: seq<char>, t: string, v: nat, name: Name)
    requires frames != [] && v < |t| && ScalarAt(t, v).Some?
    requires Unread(mid, t, v) && AllSettled(mid, t, v, FramesTokens(frames) + NameTokens(name))
    requires var k := ScalarAt(t, v).value; Stored(mid, now, k.pos, k.text, k.next)
    ensures var k := ScalarAt(t, v).value; Reading(AddKid(frames, Scalar(name, k.typ, k.pos, k.text)), now, t, k.next)
  {
    var k := ScalarAt(t, v).value;
    var kid, ks := Scalar(name, k.typ, k.pos, k.text), FramesTokens(frames) + NameTokens(name);
    ScalarEnds(t, v);
    SettledStored(mid, now, t, v, k.pos, k.text, k.next, ks);
    UnreadLater(mid, now, t, v, k.pos, k.next);
    TokensAdd(frames, kid);
    assert ks + [Piece(k.pos, k.text)] == FramesTokens(frames) + Tokens(kid);
  }

  /** Reading on after an opening bracket. */
  lemma ReadOpen(frames: seq<Frame>, mid: seq<char>, t: string, v: nat, name: Name, typ: JType)
    requires frames != [] && v < |t| && Opens(t[v])
    requires Unread(mid, t, v) && AllSettled(mid, t, v, FramesTokens(frames) + NameTokens(name))
    ensures Reading(frames + [Frame(name, typ, [])], mid, t, v + 1)
  {
    SettledAdvance(mid, mid, t, v, v, v + 1, FramesTokens(frames) + NameTokens(name));
    TokensPush(frames, name, typ);
  }

  /** The name of an item was read; unless its value is missing, the tokens so far are in place. */
  ghost predicate AtValue(frames: seq<Frame>, buf: seq<char>, t: string, name: Name, v: nat) {
    && v < |t| && Unread(buf, t, v)
    && (!EndOfBlock(t[v]) ==> AllSettled(buf, t, v, FramesTokens(frames) + NameTokens(name)))
  }

  /** From the value at v the item leads to the containers fs and the position r, or fails. */
  ghost predicate Reads(t: string, frames: seq<Frame>, name: Name, v: nat, fs: seq<Frame>, r: int)
    requires frames != [] && v < |t|
  {
    if Opens(t[v]) then r == v + 1 && fs == frames + [Frame(name, OpenType(t[v]), [])]
    else match ScalarAt(t, v)
      case None => r == -1
      case Some(k) => r == k.next && fs == AddKid(frames, Scalar(name, k.typ, k.pos, k.text))
  }

  /** The same for the whole item at q. */
  ghost predicate ItemReads(t: string, frames: seq<Frame>, q: nat, fs: seq<Frame>, r: int)
    requires frames != [] && q < |t|
  {
    match HeadAt(t, q, Last(frames).typ)
    case None => r == -1
    case Some((name, v)) => Reads(t, frames, name, v, fs, r)
  }

  /** An item read, or refused because all qty nodes are in use, leaves the outcome as it was. */
  lemma ItemOutcome(t: string, frames: seq<Frame>, p: nat, q: nat, fs: seq<Frame>, r: int, full: bool, qty: nat)
    requires ItemStarts(t, frames, p, q) && (full ==> r == -1 && FramesSize(frames) >= qty)
    requires !full ==> ItemReads(t, frames, q, fs, r)
    ensures r == -1 ==> Finish(t, frames, p).None? || Size(Finish(t, frames, p).value) > qty
    ensures r != -1 ==> p < r <= |t| && fs != [] && Finish(t, fs, r) == Finish(t, frames, p)
  {
    if full {
      if Finish(t, frames, p).Some? { ItemNeedsNode(t, frames, p, q); }
    } else if HeadAt(t, q, Last(frames).typ).None? {
      FinishFails(t, frames, p, q);
    } else {
      var (name, v) := HeadAt(t, q, Last(frames).typ).value;
      if Opens(t[v]) {
        FinishOpen(t, frames, p, q, name, v);
      } else if ScalarAt(t, v).None? {
        FinishFails(t, frames, p, q);
      } else {
        FinishScalar(t, frames, p, q, name, v, ScalarAt(t, v).value);
      }
    }
  }

  method OpenItem(buf: array<char>, pool: Pool, obj: nat, property: nat, name: int, v: nat, ghost t: string,
                  ghost frames: seq<Frame>, ghost nm: Name)
    returns (ghost fs: seq<Frame>)
    requires AtValue(frames, buf[..], t, nm, v) && Opens(t[v]) && name == NamePos(nm)
    requires pool.Shape() && property < pool.qty && Linked(frames, pool.mem[..], pool.last[..], obj, property)
    modifies pool.mem, pool.last
    ensures Reads(t, frames, nm, v, fs, v + 1)
    ensures Between(fs, buf[..], t, v + 1, pool.mem[..], pool.last[..], property, property + 1)
  {
    var kind := OpenType(buf[v]);
    ghost var f := Frame(nm, kind, []);
    ReadOpen(frames, buf[..], t, v, nm, kind);
    fs := frames + [f];
    PushContainer(pool, obj, property, name, kind, frames, f);
  }

  method ScalarItem(buf: array<char>, pool: Pool, obj: nat, property: nat, name: int, v: nat, ghost t: string,
                    ghost frames: seq<Frame>, ghost nm: Name)
    returns (r: int, ghost fs: seq<Frame>)
    requires AtValue(frames, buf[..], t, nm, v) && !Opens(t[v]) && name == NamePos(nm)
    requires pool.Shape() && property < pool.qty && Linked(frames, pool.mem[..], pool.last[..], obj, property)
    modifies buf, pool.mem, pool.last
    ensures Reads(t, frames, nm, v, fs, r)
    ensures r != -1 ==> 0 <= r && Between(fs, buf[..], t, r, pool.mem[..], pool.last[..], obj, property + 1)
  {
    fs := frames;
    ghost var mid := buf[..];
    var next, kind, pos := ScalarValue(buf, v, t);
    if next == -1 { return -1, fs; }
    ghost var kid := Scalar(nm, kind, pos, ScalarAt(t, v).value.text);
    ReadScalar(frames, mid, buf[..], t, v, nm);
    fs := AddKid(frames, kid);
    PushScalar(pool, obj, property, name, kind, pos, frames, kid);
    r := next;
  }

  /** Lines 351-356: the name, if the container has names. */
  method ReadName(buf: array<char>, q: nat, typ: JType, ghost t: string, ghost frames: seq<Frame>, ghost p: nat)
    returns (v: int, name: int, ghost nm: Name)
    requires Reading(frames, buf[..], t, p) && ItemStarts(t, frames, p, q)
    modifies buf
    ensures v == -1 ==> HeadAt(t, q, typ).None?
    ensures v != -1 ==> 0 <= v && HeadAt(t, q, typ) == Some((nm, v)) && name == NamePos(nm) && AtValue(frames, buf[..], t, nm, v)
  {
    ghost var was := buf[..];
    UnreadLater(was, was, t, p, p, q);
    v, name := PropertyName(buf, q, typ, t);
    nm := NoName;
    if v != -1 {
      nm := HeadAt(t, q, typ).value.0;
      if nm.Named? { UnreadLater(was, buf[..], t, p, nm.pos, v); }
      if !EndOfBlock(t[q]) { SettledName(was, buf[..], t, p, q, nm, v, FramesTokens(frames)); }
    }
  }

  /** Lines 357-380: link the node and read the value. The node is linked when its value is
      known; linking and reading touch different memory. */
  method Value(buf: array<char>, pool: Pool, obj: nat, property: nat, name: int, v: nat, ghost t: string,
               ghost frames: seq<Frame>, ghost nm: Name)
    returns (r: int, obj': nat, ghost fs: seq<Frame>)
    requires AtValue(frames, buf[..], t, nm, v) && name == NamePos(nm)
    requires pool.Shape() && property < pool.qty && Linked(frames, pool.mem[..], pool.last[..], obj, property)
    modifies buf, pool.mem, pool.last
    ensures Reads(t, frames, nm, v, fs, r)
    ensures r != -1 ==> 0 <= r && Between(fs, buf[..], t, r, pool.mem[..], pool.last[..], obj', property + 1)
  {
    UnreadAt(buf[..], t, v, v);
    if buf[v] == '{' || buf[v] == '[' {
      fs := OpenItem(buf, pool, obj, property, name, v, t, frames, nm);
      r, obj' := v + 1, property;
    } else {
      r, fs := ScalarItem(buf, pool, obj, property, name, v, t, frames, nm);
      obj' := obj;
    }
  }

  /** Lines 351-380: the name, then the value. */
  method Property(buf: array<char>, pool: Pool, obj: nat, property: nat, typ: JType, q: nat, ghost t: string,
                  ghost frames: seq<Frame>, ghost p: nat)
    returns (r: int, obj': nat, ghost fs: seq<Frame>)
    requires Reading(frames, buf[..], t, p) && ItemStarts(t, frames, p, q) && typ == Last(frames).typ
    requires pool.Shape() && property + 1 == pool.nextFree <= pool.qty && Linked(frames, pool.mem[..], pool.last[..], obj, property)
    modifies buf, pool.mem, pool.last
    ensures ItemReads(t, frames, q, fs, r)
    ensures r != -1 ==> 0 <= r && Between(fs, buf[..], t, r, pool.mem[..], pool.last[..], obj', pool.nextFree)
  {
    var v, name;
    ghost var nm;
    v, name, nm := ReadName(buf, q, typ, t, frames, p);
    if v == -1 { return -1, obj, frames; }
    r, obj', fs := Value(buf, pool, obj, property, name, v, t, frames, nm);
  }

  /** Lines 349-380: allocate a node for the property, then read it; full if there is none. */
  method AllocatedItem(buf: array<char>, pool: Pool, obj: nat, typ: JType, q: nat, ghost t: string, ghost frames: seq<Frame>, ghost p: nat)
    returns (r: int, obj': nat, ghost fs: seq<Frame>, ghost full: bool)
    requires pool.Shape() && Between(frames, buf[..], t, p, pool.mem[..], pool.last[..], obj, pool.nextFree)
    requires ItemStarts(t, frames, p, q) && typ == Last(frames).typ
    modifies buf, pool.mem, pool.last, pool`nextFree
    ensures full ==> r == -1 && FramesSize(frames) >= pool.qty
    ensures !full ==> ItemReads(t, frames, q, fs, r)
    ensures r != -1 ==> 0 <= r && Between(fs, buf[..], t, r, pool.mem[..], pool.last[..], obj', pool.nextFree)
  {
    var property := pool.Alloc();
    if property == -1 { return -1, obj, frames, true; }
    r, obj', fs := Property(buf, pool, obj, property, typ, q, t, frames, p);
    full := false;
  }

  method Item(buf: array<char>, pool: Pool, obj: nat, typ: JType, p: nat, q: nat, ghost t: string, ghost frames: seq<Frame>)
    returns (r: int, obj': nat, ghost fs: seq<Frame>)
    requires pool.Shape() && Between(frames, buf[..], t, p, pool.mem[..], pool.last[..], obj, pool.nextFree)
    requires ItemStarts(t, frames, p, q) && typ == Last(frames).typ
    modifies buf, pool.mem, pool.last, pool`nextFree
    ensures r == -1 ==> Finish(t, frames, p).None? || Size(Finish(t, frames, p).value) > pool.qty
    ensures r != -1 ==> p < r <= |t| && fs != [] && Finish(t, fs, r) == Finish(t, frames, p)
    ensures r != -1 ==> Between(fs, buf[..], t, r, pool.mem[..], pool.last[..], obj', pool.nextFree)
  {
    ghost var full;
    r, obj', fs, full := AllocatedItem(buf, pool, obj, typ, q, t, frames, p);
    ItemOutcome(t, frames, p, q, fs, r, full, pool.qty);
  }

  // ----- the document

  /** A C string at pos. */
  ghost predicate CString(buf: seq<char>, pos: nat, s: string) {
    pos + |s| < |buf| && Clean(s) && buf[pos..pos + |s|] == s && buf[pos + |s|] == NUL
  }

  /** Every name and value of the tree is a terminated, decoded string in the buffer. */
  ghost predicate TextInPlace(buf: seq<char>, tree: Tree) {
    forall n :: 0 <= n < |Tokens(tree)| ==> CString(buf, Tokens(tree)[n].pos, Tokens(tree)[n].text)
  }

  lemma ClosedText(buf: seq<char>, t: string, p: nat, q: nat, f: Frame)
    requires Reading([f], buf, t, p) && GoBlank(t, p) == Some(q) && EndOfBlock(t[q])
    ensures TextInPlace(buf[q := NUL], Closed(f))
  {
    var ks, now := FramesTokens([f]), buf[q := NUL];
    assert Init([f]) == [] && Last([f]) == f;
    assert FramesTokens([]) == [];
    assert ks == FramesTokens([]) + Tokens(Closed(f));
    assert ks == Tokens(Closed(f));
    SettledClose(buf, t, p, q, ks);
    forall n | 0 <= n < |ks| ensures CString(now, ks[n].pos, ks[n].text) {
      assert Settled(now, t, q + 1, ks[n]) && Settled(buf, t, p, ks[n]);
    }
  }

  lemma ReadClose(frames: seq<Frame>, buf: seq<char>, t: string, p: nat, q: nat)
    requires |frames| > 1 && Reading(frames, buf, t, p) && GoBlank(t, p) == Some(q) && EndOfBlock(t[q])
    ensures Reading(AddKid(Init(frames), Closed(Last(frames))), buf[q := NUL], t, q + 1)
  {
    SettledClose(buf, t, p, q, FramesTokens(frames));
    TokensPop(frames);
    UnreadLater(buf, buf[q := NUL], t, p, q, q + 1);
  }

  lemma ReadComma(frames: seq<Frame>, buf: seq<char>, t: string, p: nat, q: nat)
    requires Reading(frames, buf, t, p) && GoBlank(t, p) == Some(q) && t[q] == ','
    ensures Reading(frames, buf, t, q + 1)
  {
    NotWaiting(t, p, q);
    SettledAdvance(buf, buf, t, p, q, q + 1, FramesTokens(frames));
  }

  /** Lines 340-347: the bracket is overwritten; parent is -1 when the document is complete. */
  method CloseBracket(buf: array<char>, pool: Pool, obj: nat, q: nat, ghost t: string, ghost p: nat, ghost frames: seq<Frame>)
    returns (parent: int, ghost fs: seq<Frame>)
    requires pool.Shape() && Linked(frames, pool.mem[..], pool.last[..], obj, pool.nextFree)
    requires Reading(frames, buf[..], t, p) && GoBlank(t, p) == Some(q) && t[q] == Close(Last(frames).typ)
    modifies buf, pool.mem
    ensures parent == -1 ==>
              var tree := Closed(Last(frames));
              Finish(t, frames, p) == Some(tree) && pool.nextFree == Size(tree)
              && pool.mem[..pool.nextFree] == Image(tree, 0, -1) && TextInPlace(buf[..], tree)
    ensures parent != -1 ==>
              0 <= parent && fs != [] && Linked(fs, pool.mem[..], pool.last[..], parent, pool.nextFree)
              && Reading(fs, buf[..], t, q + 1) && Finish(t, fs, q + 1) == Finish(t, frames, p)
  {
    ghost var was := buf[..];
    FinishClose(t, frames, p, q);
    buf[q] := NUL;
    assert buf[..] == was[q := NUL];
    parent := PopContainer(pool, obj, frames);
    fs := frames;
    if parent == -1 {
      assert frames == [Last(frames)] && Init(frames) == [];
      ClosedText(was, t, p, q, Last(frames));
      RootImage(Last(frames));
    } else {
      ReadClose(frames, was, t, p, q);
      fs := AddKid(Init(frames), Closed(Last(frames)));
    }
  }

  datatype Status = Failed | More | Done

  /** The finished document in the pool and the buffer. */
  ghost predicate Holds(tree: Tree, buf: seq<char>, mem: seq<JNode>, free: nat) {
    free == Size(tree) <= |mem| && mem[..free] == Image(tree, 0, -1) && TextInPlace(buf, tree)
  }

  /** Lines 335-380: a comma, the closing bracket, or an item at q. */
  method Dispatch(buf: array<char>, pool: Pool, obj: nat, typ: JType, p: nat, q: nat, ghost t: string, ghost frames: seq<Frame>)
    returns (st: Status, obj': nat, p': nat, ghost fs: seq<Frame>)
    requires pool.Shape() && Between(frames, buf[..], t, p, pool.mem[..], pool.last[..], obj, pool.nextFree)
    requires q < buf.Length && p <= |t| && GoBlank(t, p) == Some(q) && buf[q] == t[q] && typ == Last(frames).typ
    modifies buf, pool.mem, pool.last, pool`nextFree
    ensures st == Failed ==> Finish(t, frames, p).None? || Size(Finish(t, frames, p).value) > pool.qty
    ensures st == Done ==> Finish(t, frames, p).Some? && Holds(Finish(t, frames, p).value, buf[..], pool.mem[..], pool.nextFree)
    ensures st == More ==> p < p' <= |t| && fs != [] && Finish(t, fs, p') == Finish(t, frames, p)
    ensures st == More ==> Between(fs, buf[..], t, p', pool.mem[..], pool.last[..], obj', pool.nextFree)
  {
    obj', p', fs := obj, p, frames;
    if buf[q] == ',' {
      FinishComma(t, frames, p, q);
      ReadComma(frames, buf[..], t, p, q);
      st, p' := More, q + 1;
    } else if buf[q] == Close(typ) {
      var parent;
      parent, fs := CloseBracket(buf, pool, obj, q, t, p, frames);
      if parent == -1 { return Done, obj', p', fs; }
      st, obj', p' := More, parent, q + 1;
    } else {
      var next;
      next, obj', fs := Item(buf, pool, obj, typ, p, q, t, frames);
      if next == -1 { return Failed, obj', p', fs; }
      st, p' := More, next;
    }
  }

  /** One iteration of objValue's loop (lines 333-380). */
  method Step(buf: array<char>, pool: Pool, obj: nat, p: nat, ghost t: string, ghost frames: seq<Frame>)
    returns (st: Status, obj': nat, p': nat, ghost fs: seq<Frame>)
    requires pool.Shape() && Between(frames, buf[..], t, p, pool.mem[..], pool.last[..], obj, pool.nextFree)
    modifies buf, pool.mem, pool.last, pool`nextFree
    ensures st == Failed ==> Finish(t, frames, p).None? || Size(Finish(t, frames, p).value) > pool.qty
    ensures st == Done ==> Finish(t, frames, p).Some? && Holds(Finish(t, frames, p).value, buf[..], pool.mem[..], pool.nextFree)
    ensures st == More ==> p < p' <= |t| && fs != [] && Finish(t, fs, p') == Finish(t, frames, p)
    ensures st == More ==> Between(fs, buf[..], t, p', pool.mem[..], pool.last[..], obj', pool.nextFree)
  {
    var q := SkipBlank(buf, p, t);
    if q == -1 { return Failed, obj, p, frames; }
    UnreadAt(buf[..], t, p, q);
    TopNode(frames);
    ghost var img := StackImage(frames);
    assert pool.mem[obj] == img[obj];
    st, obj', p', fs := Dispatch(buf, pool, obj, pool.mem[obj].typ, p, q, t, frames);
  }

  /** objValue from after the first bracket. */
  method ObjValue(buf: array<char>, pool: Pool, start: nat, ghost t: string, ghost root: Frame) returns (ok: bool)
    requires pool.Shape() && Between([root], buf[..], t, start, pool.mem[..], pool.last[..], 0, pool.nextFree)
    modifies buf, pool.mem, pool.last, pool`nextFree
    ensures !ok ==> Finish(t, [root], start).None? || Size(Finish(t, [root], start).value) > pool.qty
    ensures ok ==> Finish(t, [root], start).Some?
                   && Holds(Finish(t, [root], start).value, buf[..], pool.mem[..], pool.nextFree)
  {
    var p, obj := start, 0;
    ghost var frames := [root];
    while true
      invariant p <= |t| && frames != []
      invariant Between(frames, buf[..], t, p, pool.mem[..], pool.last[..], obj, pool.nextFree)
      invariant Finish(t, frames, p) == Finish(t, [root], start)
      decreases |t| - p
    {
      var st;
      st, obj, p, frames := Step(buf, pool, obj, p, t, frames);
      if st == Failed { return false; }
      if st == Done { return true; }
    }
  }

  /** json_create on a NUL-terminated buffer holding t. It succeeds exactly when t starts with a
      container of the grammar that fits in the pool; the pool and the buffer then hold its tree. */
  method JsonCreate(buf: array<char>, pool: Pool, ghost t: string) returns (obj: int)
    requires pool.Shape() && pool.qty >= 1 && Unread(buf[..], t, 0)
    modifies buf, pool.mem, pool.last, pool`nextFree
    ensures obj == if Parse(t).Some? && Size(Parse(t).value) <= pool.qty then 0 else -1
    ensures obj == 0 ==> var tree := Parse(t).value;
                         Holds(tree, buf[..], pool.mem[..], pool.nextFree)
  {
    var p := SkipBlank(buf, 0, t);
    if p == -1 || (buf[p] != '{' && buf[p] != '[') { return -1; }
    var root := pool.Init();
    ghost var f := Frame(NoName, OpenType(buf[p]), []);
    pool.mem[root] := JNode(-1, -1, OpenType(buf[p]), -1);
    assert Init([f]) == [];
    assert pool.mem[..1] == StackImage([f]);
    assert Reading([f], buf[..], t, p + 1) by {
      assert Tokens(Closed(f)) == [] && FramesTokens([f]) == [];
    }
    ParseIsFinish(t, p);
    var ok := ObjValue(buf, pool, p + 1, t, f);
    obj := if ok then root else -1;
  }

  lemma ParseIsFinish(t: string, p: nat)
    requires GoBlank(t, 0) == Some(p) && Opens(t[p])
    ensures Parse(t) == Finish(t, [Frame(NoName, OpenType(t[p]), [])], p + 1)
  {
    match Items(t, p + 1, OpenType(t[p])) {
      case None =>
      case Some((kids, _)) => assert [] + kids == kids;
    }
  }
}
