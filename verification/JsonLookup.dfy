/** json_create and json_getPropertyValue together, on every object that can be written down. */
module JsonLookup {
  import opened Options
  import opened JsonText
  import opened JsonGrammar
  import opened JsonLexer
  import opened JsonParser
  import opened JsonPrinter
  import opened JsonRoundTrip
  import opened JsonQuery

  /** The values in a value, itself included. */
  function Nodes(v: Value): (r: nat)
    ensures r >= 1
    decreases v, 1
  {
    match v case Composite(_, _, members) => 1 + NodesAll(members) case _ => 1
  }

  function NodesAll(members: seq<Member>): nat
    decreases members, 0
  {
    if members == [] then 0 else Nodes(members[0].val) + NodesAll(members[1..])
  }

  lemma SizeCons(kids: seq<Tree>)
    requires kids != []
    ensures SizeAll(kids) == Size(kids[0]) + SizeAll(kids[1..])
  {
    var first := [kids[0]];
    assert first[..0] == [] && SizeAll(first) == Size(kids[0]);
    SizeAllConcat(first, kids[1..]);
    assert first + kids[1..] == kids;
  }

  /** A parsed value has one node for each value in it. */
  lemma {:induction false} SizeIs(tree: Tree, v: Value)
    requires Is(tree, v)
    ensures Size(tree) == Nodes(v)
    decreases v, 1
  {
    if v.Composite? { SizesAre(tree.kids, v.obj, v.members); }
  }

  lemma {:induction false} SizesAre(kids: seq<Tree>, obj: bool, members: seq<Member>)
    requires AllAre(kids, obj, members)
    ensures SizeAll(kids) == NodesAll(members)
    decreases members, 0
  {
    if members != [] {
      SizeCons(kids);
      SizeIs(kids[0], members[0].val);
      SizesAre(kids[1..], obj, members[1..]);
    }
  }

  lemma {:induction false} MemberAt(kids: seq<Tree>, members: seq<Member>, i: nat)
    requires AllAre(kids, true, members) && i < |members|
    ensures |kids| == |members| && Is(kids[i], members[i].val) && kids[i].name.Named? && kids[i].name.text == Meant(members[i].key)
  {
    if i > 0 { MemberAt(kids[1..], members[1..], i - 1); }
  }

  /** The text of a scalar, as a caller gets it. */
  function ScalarText(v: Value): string
    requires !v.Composite?
  {
    match v
    case Text(ls) => Meant(ls)
    case Number(n) => NumberText(n)
    case Bool(b) => if b then "true" else "false"
    case Null => "null"
  }

  lemma KindOf(tree: Tree, v: Value)
    requires Is(tree, v)
    ensures tree.Container? <==> v.Composite?
    ensures tree.Container? <==> tree.typ == OBJ || tree.typ == ARRAY
    ensures !v.Composite? ==> tree.text == ScalarText(v)
  {
  }

  lemma KidsAreMembers(kids: seq<Tree>, members: seq<Member>, property: string)
    requires AllAre(kids, true, members)
    ensures |kids| == |members|
    ensures forall i :: 0 <= i < |kids| ==> (HasName(kids[i], property) <==> Meant(members[i].key) == property)
    ensures forall i :: 0 <= i < |kids| ==> (kids[i].Container? <==> kids[i].typ == OBJ || kids[i].typ == ARRAY)
    ensures forall i :: 0 <= i < |kids| ==> (kids[i].Container? <==> members[i].val.Composite?)
    ensures forall i :: 0 <= i < |kids| && !members[i].val.Composite? ==> kids[i].text == ScalarText(members[i].val)
  {
    forall i | 0 <= i < |kids|
      ensures HasName(kids[i], property) <==> Meant(members[i].key) == property
      ensures kids[i].Container? <==> kids[i].typ == OBJ || kids[i].typ == ARRAY
      ensures kids[i].Container? <==> members[i].val.Composite?
      ensures !members[i].val.Composite? ==> kids[i].text == ScalarText(members[i].val)
    {
      MemberAt(kids, members, i);
      KindOf(kids[i], members[i].val);
    }
  }

  /** What a lookup in an object with these members finds at r: the text of the first member of
      that name, k, if there is one and it is a scalar. */
  ghost predicate LooksUp(buf: seq<char>, members: seq<Member>, property: string, k: nat, r: int) {
    && k <= |members| && (forall j :: 0 <= j < k ==> Meant(members[j].key) != property)
    && (k < |members| ==> Meant(members[k].key) == property)
    && (if k < |members| && !members[k].val.Composite? then r >= 0 && CString(buf, r, ScalarText(members[k].val)) else r == -1)
  }

  /** Parsing any printed object needs one node for each of its values. */
  lemma PrintedTree(front: string, members: seq<Member>, ws: string, rest: string, t: string) returns (tree: Tree)
    requires Printable(Composite(true, front, members)) && Blanks(ws) && t == ws + (Print(Composite(true, front, members)) + rest)
    ensures Parse(t) == Some(tree) && tree.Container? && AllAre(tree.kids, true, members) && Size(tree) == 1 + NodesAll(members)
  {
    ParsePrint(Composite(true, front, members), ws, rest);
    tree := Parse(t).value;
    SizeIs(tree, Composite(true, front, members));
  }

  method Find(buf: array<char>, pool: Pool, property: string, ghost tree: Tree, ghost members: seq<Member>) returns (r: int, ghost k: nat)
    requires Clean(property) && tree.Container? && AllAre(tree.kids, true, members) && Holds(tree, buf[..], pool.mem[..], pool.nextFree)
    ensures LooksUp(buf[..], members, property, k, r)
  {
    KidsAreMembers(tree.kids, members, property);
    r, k := GetPropertyValue(buf, pool.mem, 0, property, tree, -1);
  }

  /** Whatever object is written, laid out in whatever way, json_create accepts it
      exactly if the pool has a node for each value, and json_getPropertyValue then finds the
      text of the first member of that name. */
  method CreateAndGet(buf: array<char>, pool: Pool, property: string, ghost front: string, ghost members: seq<Member>,
                      ghost ws: string, ghost rest: string)
    returns (obj: int, r: int, ghost k: nat)
    requires pool.Shape() && pool.qty >= 1 && Clean(property) && Printable(Composite(true, front, members)) && Blanks(ws)
    requires Unread(buf[..], ws + (Print(Composite(true, front, members)) + rest), 0)
    modifies buf, pool.mem, pool.last, pool`nextFree
    ensures obj == if 1 + NodesAll(members) <= pool.qty then 0 else -1
    ensures obj == 0 ==> LooksUp(buf[..], members, property, k, r)
  {
    ghost var t := ws + (Print(Composite(true, front, members)) + rest);
    ghost var tree := PrintedTree(front, members, ws, rest, t);
    obj := JsonCreate(buf, pool, t);
    r, k := -1, 0;
    if obj == 0 { r, k := Find(buf, pool, property, tree, members); }
  }
}
