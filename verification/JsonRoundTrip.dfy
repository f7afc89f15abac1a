/** Reading back what was printed: of every value, laid out in any way, the parser finds exactly
    that value. */
module JsonRoundTrip {
  import opened Options
  import opened JsonText
  import opened JsonNumbers
  import opened JsonGrammar
  import opened JsonPrinter

  // ----- blanks and separators

  /** Blanks and commas are skipped between values. */
  lemma {:induction false} SkipGap(t: string, e: nat, y: nat, typ: JType)
    requires e <= y <= |t| && forall k :: e <= k < y ==> t[k] == ',' || Blank(t[k])
    ensures Items(t, e, typ) == Items(t, y, typ)
    decreases y - e
  {
    if e < y {
      SkipGap(t, e + 1, y, typ);
      if t[e] == ',' {
        assert GoBlank(t, e) == Some(e);
      } else {
        assert GoBlank(t, e) == GoBlank(t, e + 1);
        ItemsByBlank(t, e, e + 1, typ);
      }
    }
  }

  lemma ItemsByBlank(t: string, p: nat, q: nat, typ: JType)
    requires p <= |t| && q <= |t| && GoBlank(t, p) == GoBlank(t, q)
    ensures Items(t, p, typ) == Items(t, q, typ)
  {
  }

  lemma {:induction false} SkipBlanks(t: string, e: nat, ws: string)
    requires Blanks(ws) && Stands(t, e, ws)
    ensures GoBlank(t, e) == GoBlank(t, e + |ws|)
    decreases |ws|
  {
    if ws != "" {
      CharAt(t, e, ws, 0);
      assert ws == ws[..1] + ws[1..];
      Split(t, e, ws[..1], ws[1..]);
      SkipBlanks(t, e + 1, ws[1..]);
    }
  }

  /** A string of blanks and commas, where it stands. */
  lemma GapStands(t: string, p: nat, s: string)
    requires Stands(t, p, s) && Gap(s)
    ensures forall k :: p <= k < p + |s| ==> t[k] == ',' || Blank(t[k])
  {
    forall k | p <= k < p + |s| ensures t[k] == ',' || Blank(t[k]) { CharAt(t, p, s, k - p); }
  }

  // ----- what a value starts with

  predicate Starts(c: char) { c in {'\"', '-', 't', 'f', 'n', '{', '['} || Digit(c) }

  lemma ValueStarts(v: Value)
    requires Printable(v)
    ensures Print(v) != "" && Starts(Print(v)[0])
    ensures v.Number? ==> Print(v)[0] == '-' || Digit(Print(v)[0])
  {
    if v.Number? {
      var s := NumberText(v.n);
      assert v.n.neg ==> s[0] == '-';
      assert !v.n.neg ==> s[0] == v.n.whole[0];
    }
  }

  lemma StartIsNoGap(c: char)
    requires Starts(c)
    ensures !Blank(c) && c != ',' && c != '}' && c != ']'
  {
  }

  // ----- scalars

  /** The value at p is v, and reading goes on at x or just behind it. */
  ghost predicate Found(t: string, p: nat, name: Name, v: Value, x: nat)
    requires p < |t|
  {
    forall n :: n == name ==>
      && ValueAt(t, p, n).Some?
      && var (tree, e) := ValueAt(t, p, n).value;
         Is(tree, v) && tree.name == n && x < |t| && (e == x || (e == x + 1 && (t[x] == ',' || Blank(t[x]))))
  }

  lemma QuoteRead(t: string, p: nat, ls: seq<Letter>, e: nat)
    requires AllSpellable(ls) && Stands(t, p, Quote(ls)) && e == p + |Quote(ls)|
    ensures p < |t| && t[p] == '\"' && StringAt(t, p + 1) == Some((Meant(ls), e))
  {
    CharAt(t, p, Quote(ls), 0);
    Split(t, p, "\"", Spelled(ls));
    LettersRead(t, p + 1, ls, e);
  }

  lemma TextFound(t: string, p: nat, name: Name, ls: seq<Letter>, x: nat)
    requires AllSpellable(ls) && Stands(t, p, Quote(ls)) && x == p + |Quote(ls)| < |t|
    ensures p < |t| && Found(t, p, name, Text(ls), x)
  {
    QuoteRead(t, p, ls, x);
  }

  lemma NumberValue(t: string, p: nat, name: Name, e: nat, typ: JType)
    requires p < e < |t| && (t[p] == '-' || Digit(t[p])) && NumberAt(t, p) == Some((e, typ))
    ensures ValueAt(t, p, name) == Some((Scalar(name, typ, p, t[p..e]), After(t, e)))
  {
  }

  lemma NumberTyped(t: string, p: nat, n: Parts, s: string, x: nat, typ: JType)
    requires Printable(Number(n)) && s == NumberText(n) && Stands(t, p, s) && x == p + |s| < |t| && EndOfPrimitive(t[x])
    requires typ == if IsReal(n) then REAL else INTEGER
    ensures NumberAt(t, p) == Some((x, typ))
  {
    NumberRead(t, p, n);
  }

  lemma NumberStarts(t: string, p: nat, n: Parts, s: string)
    requires Printable(Number(n)) && s == NumberText(n) && Stands(t, p, s)
    ensures s != "" && p < |t| && (t[p] == '-' || Digit(t[p]))
  {
    ValueStarts(Number(n));
    CharAt(t, p, s, 0);
  }

  lemma NumberFound(t: string, p: nat, name: Name, n: Parts, s: string, x: nat)
    requires Printable(Number(n)) && s == NumberText(n) && Stands(t, p, s) && x == p + |s| < |t| && EndOfPrimitive(t[x])
    ensures p < x && Found(t, p, name, Number(n), x)
  {
    var typ := if IsReal(n) then REAL else INTEGER;
    NumberStarts(t, p, n, s);
    NumberTyped(t, p, n, s, x, typ);
    Slice(t, p, s);
    NumberValue(t, p, name, x, typ);
    ScalarIs(t, p, name, n, typ, s, x);
  }

  lemma ScalarIs(t: string, p: nat, name: Name, n: Parts, typ: JType, text: string, x: nat)
    requires p < |t| && x < |t| && EndOfPrimitive(t[x]) && ValueAt(t, p, name) == Some((Scalar(name, typ, p, text), After(t, x)))
    requires typ == (if IsReal(n) then REAL else INTEGER) && text == NumberText(n)
    ensures Found(t, p, name, Number(n), x)
  {
  }

  lemma LiteralFound(t: string, p: nat, name: Name, v: Value, lit: string, x: nat)
    requires (v == Bool(true) && lit == "true") || (v == Bool(false) && lit == "false") || (v == Null && lit == "null")
    requires Stands(t, p, lit) && x == p + |lit| < |t| && EndOfPrimitive(t[x])
    ensures Found(t, p, name, v, x)
  {
    CharAt(t, p, lit, 0);
    assert LiteralAt(t, p, lit) == Some(x);
  }

  // ----- members

  function TypeOf(obj: bool): JType { if obj then OBJ else ARRAY }

  /** The name a member gets, its key standing at p. */
  function NameAt(obj: bool, p: nat, key: seq<Letter>): Name { if obj then Named(p + 1, Meant(key)) else NoName }

  lemma ColonFound(t: string, e: nat, before: string, after: string, x: nat)
    requires Blanks(before) && Blanks(after) && Stands(t, e, before + (":" + after))
    requires x == e + |before| + 1 + |after| < |t| && Starts(t[x])
    ensures ValueStart(t, e) == Some(x)
  {
    var c := e + |before|;
    Split(t, e, before, ":" + after);
    Split(t, c, ":", after);
    CharAt(t, c, ":", 0);
    StartIsNoGap(t[x]);
    SkipBlanks(t, e, before);
    SkipBlanks(t, c + 1, after);
  }

  lemma NameFound(t: string, p: nat, key: string, e: nat, x: nat)
    requires p < |t| && t[p] == '\"' && StringAt(t, p + 1) == Some((key, e)) && ValueStart(t, e) == Some(x)
    ensures HeadAt(t, p, OBJ) == Some((Named(p + 1, key), x))
  {
  }

  lemma KeyFound(t: string, p: nat, key: seq<Letter>, before: string, after: string, x: nat)
    requires AllSpellable(key) && Blanks(before) && Blanks(after) && Stands(t, p, PrintKey(true, key, before, after))
    requires x == p + |PrintKey(true, key, before, after)| < |t| && Starts(t[x])
    ensures p < |t| && t[p] == '\"' && HeadAt(t, p, OBJ) == Some((Named(p + 1, Meant(key)), x))
  {
    var e := p + |Quote(key)|;
    Split(t, p, Quote(key), before + (":" + after));
    QuoteRead(t, p, key, e);
    ColonFound(t, e, before, after, x);
    NameFound(t, p, Meant(key), e, x);
  }

  lemma HeadFound(t: string, p: nat, obj: bool, key: seq<Letter>, before: string, after: string, x: nat)
    requires AllSpellable(key) && Blanks(before) && Blanks(after) && Stands(t, p, PrintKey(obj, key, before, after))
    requires x == p + |PrintKey(obj, key, before, after)| < |t| && Starts(t[x])
    ensures p < |t| && Starts(t[p]) && HeadAt(t, p, TypeOf(obj)) == Some((NameAt(obj, p, key), x))
  {
    if obj { KeyFound(t, p, key, before, after, x); }
  }

  lemma ItemFound(t: string, p: nat, typ: JType, name: Name, x: nat, tree: Tree, e: nat)
    requires p < |t| && Starts(t[p]) && HeadAt(t, p, typ) == Some((name, x)) && x < |t| && ValueAt(t, x, name) == Some((tree, e))
    ensures Items(t, p, typ) == Follow(tree, Items(t, e, typ))
  {
    StartIsNoGap(t[p]);
    assert GoBlank(t, p) == Some(p);
  }

  /** Behind a value reading goes on at the next one. */
  lemma GapFound(t: string, x: nat, e: nat, s: string, typ: JType)
    requires Stands(t, x, s) && Gap(s) && x < |t| && (e == x || (e == x + 1 && (t[x] == ',' || Blank(t[x]))))
    ensures e <= |t| && Items(t, e, typ) == Items(t, x + |s|, typ)
  {
    if s == "" {
      SkipGap(t, x, e, typ);
    } else {
      GapStands(t, x, s);
      SkipGap(t, e, x + |s|, typ);
    }
  }

  lemma AreCons(tree: Tree, kids: seq<Tree>, obj: bool, members: seq<Member>)
    requires members != [] && Is(tree, members[0].val) && AllAre(kids, obj, members[1..])
    requires if obj then tree.name.Named? && tree.name.text == Meant(members[0].key) else tree.name.NoName?
    ensures AllAre([tree] + kids, obj, members)
  {
    assert ([tree] + kids)[1..] == kids;
  }

  /** The members read from p on, and the position behind the closing bracket. */
  ghost predicate Listed(t: string, p: nat, obj: bool, members: seq<Member>, end: nat)
    requires p <= |t|
  {
    forall typ :: typ == TypeOf(obj) ==>
      Items(t, p, typ).Some? && Items(t, p, typ).value.1 == end && AllAre(Items(t, p, typ).value.0, obj, members)
  }

  lemma FoundIs(t: string, p: nat, name: Name, v: Value, x: nat) returns (tree: Tree, e: nat)
    requires p < |t| && Found(t, p, name, v, x)
    ensures ValueAt(t, p, name) == Some((tree, e)) && Is(tree, v) && tree.name == name && e <= |t|
    ensures x < |t| && (e == x || (e == x + 1 && (t[x] == ',' || Blank(t[x]))))
  {
    tree, e := ValueAt(t, p, name).value.0, ValueAt(t, p, name).value.1;
  }

  lemma ListedIs(t: string, p: nat, obj: bool, members: seq<Member>, end: nat) returns (kids: seq<Tree>)
    requires p <= |t| && Listed(t, p, obj, members, end)
    ensures Items(t, p, TypeOf(obj)) == Some((kids, end)) && AllAre(kids, obj, members)
  {
    kids := Items(t, p, TypeOf(obj)).value.0;
  }

  lemma ListedCons(t: string, p: nat, obj: bool, members: seq<Member>, tree: Tree, kids: seq<Tree>, end: nat)
    requires members != [] && p < |t| && Is(tree, members[0].val) && AllAre(kids, obj, members[1..])
    requires tree.name == NameAt(obj, p, members[0].key) && Items(t, p, TypeOf(obj)) == Some(([tree] + kids, end))
    ensures Listed(t, p, obj, members, end)
  {
    AreCons(tree, kids, obj, members);
  }

  lemma ListedStep(t: string, p: nat, x: nat, obj: bool, members: seq<Member>, name: Name, y: nat, s: string, end: nat)
    requires members != [] && p < |t| && Starts(t[p]) && HeadAt(t, p, TypeOf(obj)) == Some((name, x)) && x < |t|
    requires name == NameAt(obj, p, members[0].key) && Found(t, x, name, members[0].val, y)
    requires Stands(t, y, s) && Gap(s) && Listed(t, y + |s|, obj, members[1..], end)
    ensures Listed(t, p, obj, members, end)
  {
    var tree, e := FoundIs(t, x, name, members[0].val, y);
    var kids := ListedIs(t, y + |s|, obj, members[1..], end);
    ItemsFollow(t, p, x, y, e, TypeOf(obj), name, tree, s, kids, end);
    ListedCons(t, p, obj, members, tree, kids, end);
  }

  lemma ItemsFollow(t: string, p: nat, x: nat, y: nat, e: nat, typ: JType, name: Name, tree: Tree, s: string, kids: seq<Tree>, end: nat)
    requires p < |t| && Starts(t[p]) && HeadAt(t, p, typ) == Some((name, x)) && x < |t| && ValueAt(t, x, name) == Some((tree, e))
    requires y < |t| && (e == y || (e == y + 1 && (t[y] == ',' || Blank(t[y])))) && Stands(t, y, s) && Gap(s)
    requires Items(t, y + |s|, typ) == Some((kids, end))
    ensures Items(t, p, typ) == Some(([tree] + kids, end))
  {
    GapFound(t, y, e, s, typ);
    ItemFound(t, p, typ, name, x, tree, e);
  }

  // ----- every value

  /** A printed value stands from p to x. */
  ghost predicate Printed(t: string, p: nat, v: Value, x: nat) {
    forall u :: u == v ==> Stands(t, p, Print(u)) && x == p + |Print(u)|
  }

  /** Printed members stand from p to end. */
  ghost predicate AllPrinted(t: string, p: nat, obj: bool, members: seq<Member>, end: nat) {
    forall us :: us == members ==> Stands(t, p, PrintMembers(obj, us)) && end == p + |PrintMembers(obj, us)|
  }

  /** A printed key stands from p to x. */
  ghost predicate KeyPrinted(t: string, p: nat, obj: bool, m: Member, x: nat) {
    forall u :: u == m ==> Stands(t, p, PrintKey(obj, u.key, u.before, u.after)) && x == p + |PrintKey(obj, u.key, u.before, u.after)|
  }

  lemma PrintedAs(t: string, p: nat, v: Value, text: string, x: nat)
    requires text == Print(v) && Stands(t, p, text) && x == p + |text|
    ensures Printed(t, p, v, x)
  {
  }

  lemma KeyPrintedAs(t: string, p: nat, obj: bool, m: Member, text: string, x: nat)
    requires text == PrintKey(obj, m.key, m.before, m.after) && Stands(t, p, text) && x == p + |text|
    ensures KeyPrinted(t, p, obj, m, x)
  {
  }

  lemma AllPrintedAs(t: string, p: nat, obj: bool, members: seq<Member>, text: string, end: nat)
    requires text == PrintMembers(obj, members) && Stands(t, p, text) && end == p + |text|
    ensures AllPrinted(t, p, obj, members, end)
  {
  }

  /** Four pieces, one behind the other. */
  ghost predicate Laid(t: string, p: nat, a: string, b: string, c: string, d: string, end: nat) {
    forall q :: q == p ==>
      && Stands(t, q, a) && Stands(t, q + |a|, b) && Stands(t, q + |a| + |b|, c) && Stands(t, q + |a| + |b| + |c|, d)
      && end == q + |a| + |b| + |c| + |d|
  }

  lemma Pieces(t: string, p: nat, all: string, a: string, b: string, c: string, d: string, end: nat)
    requires Stands(t, p, all) && all == a + (b + (c + d)) && end == p + |all|
    ensures Laid(t, p, a, b, c, d, end)
  {
    SplitFour(t, p, a, b, c, d);
  }

  lemma NonePrinted(t: string, p: nat, obj: bool, end: nat)
    requires AllPrinted(t, p, obj, [], end)
    ensures end == p
  {
    assert PrintMembers(obj, []) == "";
  }

  /** The first key from p to x, the first value from there to y, its gap, and the others. */
  lemma MembersLaid(t: string, p: nat, obj: bool, members: seq<Member>, end: nat) returns (x: nat, y: nat)
    requires members != [] && AllPrinted(t, p, obj, members, end)
    ensures KeyPrinted(t, p, obj, members[0], x) && Printed(t, x, members[0].val, y)
    ensures Stands(t, y, members[0].gap) && AllPrinted(t, y + |members[0].gap|, obj, members[1..], end) && y + |members[0].gap| <= end
  {
    x := p + |PrintKey(obj, members[0].key, members[0].before, members[0].after)|;
    y := x + |Print(members[0].val)|;
    MembersAt(t, p, obj, members, end, x, y);
  }

  lemma MembersAt(t: string, p: nat, obj: bool, members: seq<Member>, end: nat, x: nat, y: nat)
    requires members != [] && AllPrinted(t, p, obj, members, end)
    requires x == p + |PrintKey(obj, members[0].key, members[0].before, members[0].after)| && y == x + |Print(members[0].val)|
    ensures KeyPrinted(t, p, obj, members[0], x) && Printed(t, x, members[0].val, y)
    ensures Stands(t, y, members[0].gap) && AllPrinted(t, y + |members[0].gap|, obj, members[1..], end) && y + |members[0].gap| <= end
  {
    var m := members[0];
    var k, v, more := PrintKey(obj, m.key, m.before, m.after), Print(m.val), PrintMembers(obj, members[1..]);
    MembersPieces(t, p, obj, members, k, v, more, end);
    LaidPrinted(t, p, obj, m, members[1..], k, v, more, end, x, y);
  }

  lemma MembersPieces(t: string, p: nat, obj: bool, members: seq<Member>, k: string, v: string, more: string, end: nat)
    requires members != [] && AllPrinted(t, p, obj, members, end)
    requires k == PrintKey(obj, members[0].key, members[0].before, members[0].after) && v == Print(members[0].val)
    requires more == PrintMembers(obj, members[1..])
    ensures Laid(t, p, k, v, members[0].gap, more, end)
  {
    Pieces(t, p, PrintMembers(obj, members), k, v, members[0].gap, more, end);
  }

  lemma LaidPrinted(t: string, p: nat, obj: bool, m: Member, others: seq<Member>, k: string, v: string, more: string, end: nat, x: nat, y: nat)
    requires Laid(t, p, k, v, m.gap, more, end) && x == p + |k| && y == x + |v|
    requires k == PrintKey(obj, m.key, m.before, m.after) && v == Print(m.val) && more == PrintMembers(obj, others)
    ensures KeyPrinted(t, p, obj, m, x) && Printed(t, x, m.val, y)
    ensures Stands(t, y, m.gap) && AllPrinted(t, y + |m.gap|, obj, others, end) && y + |m.gap| <= end
  {
    LaidPieces(t, p, k, v, m.gap, more, end, x, y);
    KeyPrintedAs(t, p, obj, m, k, x);
    PrintedAs(t, x, m.val, v, y);
    AllPrintedAs(t, y + |m.gap|, obj, others, more, end);
  }

  lemma LaidPieces(t: string, p: nat, a: string, b: string, c: string, d: string, end: nat, x: nat, y: nat)
    requires Laid(t, p, a, b, c, d, end) && x == p + |a| && y == x + |b|
    ensures Stands(t, p, a) && Stands(t, x, b) && Stands(t, y, c) && Stands(t, y + |c|, d) && end == y + |c| + |d|
  {
  }

  lemma FirstStarts(t: string, p: nat, v: Value, x: nat)
    requires Printable(v) && Printed(t, p, v, x)
    ensures p < |t| && Starts(t[p])
  {
    ValueStarts(v);
    CharAt(t, p, Print(v), 0);
  }

  /** What ends a primitive: its gap, or the closing bracket. */
  lemma FirstEnds(t: string, y: nat, obj: bool, gap: string, end: nat)
    requires Gap(gap) && Stands(t, y, gap) && y <= end && Stands(t, end, Closer(obj)) && (gap == "" ==> y == end)
    ensures y < |t| && EndOfPrimitive(t[y])
  {
    if gap == "" { CharAt(t, end, Closer(obj), 0); } else { CharAt(t, y, gap, 0); }
  }

  lemma MembersRead(t: string, p: nat, x: nat, obj: bool, members: seq<Member>, y: nat, end: nat)
    requires members != [] && AllSpellable(members[0].key) && Blanks(members[0].before) && Blanks(members[0].after) && Gap(members[0].gap)
    requires KeyPrinted(t, p, obj, members[0], x)
    requires x < |t| && Starts(t[x]) && Found(t, x, NameAt(obj, p, members[0].key), members[0].val, y)
    requires Stands(t, y, members[0].gap) && Listed(t, y + |members[0].gap|, obj, members[1..], end)
    ensures Listed(t, p, obj, members, end)
  {
    HeadFound(t, p, obj, members[0].key, members[0].before, members[0].after, x);
    ListedStep(t, p, x, obj, members, NameAt(obj, p, members[0].key), y, members[0].gap, end);
  }

  lemma NoneRead(t: string, p: nat, obj: bool)
    requires Stands(t, p, Closer(obj))
    ensures Listed(t, p, obj, [], p + 1)
  {
    CharAt(t, p, Closer(obj), 0);
    assert GoBlank(t, p) == Some(p);
  }

  lemma {:induction false} ItemsRead(t: string, p: nat, obj: bool, members: seq<Member>, end: nat)
    requires AllPrintable(members) && AllPrinted(t, p, obj, members, end) && Stands(t, end, Closer(obj))
    ensures p <= |t| && Listed(t, p, obj, members, end + 1)
    decreases members, 0
  {
    if members == [] {
      NonePrinted(t, p, obj, end);
      NoneRead(t, p, obj);
    } else {
      var x, y := FirstRead(t, p, obj, members, end);
      ItemsRead(t, y + |members[0].gap|, obj, members[1..], end);
      MembersRead(t, p, x, obj, members, y, end + 1);
    }
  }

  /** The first member: its value from x to y, behind it the others. */
  lemma {:induction false} FirstRead(t: string, p: nat, obj: bool, members: seq<Member>, end: nat) returns (x: nat, y: nat)
    requires members != [] && Printable(members[0].val) && Gap(members[0].gap) && (Primitive(members[0].val) && |members| > 1 ==> members[0].gap != "")
    requires AllPrinted(t, p, obj, members, end) && Stands(t, end, Closer(obj))
    ensures KeyPrinted(t, p, obj, members[0], x)
    ensures x < |t| && Starts(t[x]) && Found(t, x, NameAt(obj, p, members[0].key), members[0].val, y)
    ensures Stands(t, y, members[0].gap) && AllPrinted(t, y + |members[0].gap|, obj, members[1..], end)
    decreases members[0].val, 2
  {
    var v, gap := members[0].val, members[0].gap;
    x, y := MembersLaid(t, p, obj, members, end);
    if |members| == 1 { NonePrinted(t, y + |gap|, obj, end); }
    if Primitive(v) { FirstEnds(t, y, obj, gap, end); }
    FirstStarts(t, x, v, y);
    ValueRead(t, x, NameAt(obj, p, members[0].key), v, y);
  }

  /** Every value that is printed, and properly ended if it is a primitive, is found. */
  lemma {:induction false} ValueRead(t: string, p: nat, name: Name, v: Value, x: nat)
    requires Printable(v) && Printed(t, p, v, x) && x < |t| && (Primitive(v) ==> EndOfPrimitive(t[x]))
    ensures p < |t| && Found(t, p, name, v, x)
    decreases v, 1
  {
    if v.Composite? {
      CompositeRead(t, p, name, v.obj, v.front, v.members, x);
    } else {
      ScalarFound(t, p, name, v, x);
    }
  }

  lemma {:induction false} CompositeRead(t: string, p: nat, name: Name, obj: bool, front: string, members: seq<Member>, x: nat)
    requires Gap(front) && AllPrintable(members) && Printed(t, p, Composite(obj, front, members), x) && x < |t|
    ensures p < |t| && Found(t, p, name, Composite(obj, front, members), x)
    decreases members, 2
  {
    CompositeListed(t, p, obj, front, members, x);
    CompositeFound(t, p, name, obj, front, members, x);
  }

  lemma {:induction false} CompositeListed(t: string, p: nat, obj: bool, front: string, members: seq<Member>, x: nat)
    requires AllPrintable(members) && Printed(t, p, Composite(obj, front, members), x)
    ensures Stands(t, p, Opener(obj)) && Stands(t, p + 1, front) && Listed(t, p + 1 + |front|, obj, members, x)
    decreases members, 1
  {
    var end := CompositeLaid(t, p, obj, front, members, x);
    ItemsRead(t, p + 1 + |front|, obj, members, end);
  }

  lemma ScalarFound(t: string, p: nat, name: Name, v: Value, x: nat)
    requires !v.Composite? && Printable(v) && Printed(t, p, v, x) && x < |t| && (Primitive(v) ==> EndOfPrimitive(t[x]))
    ensures p < |t| && Found(t, p, name, v, x)
  {
    assert Stands(t, p, Print(v));
    match v {
      case Text(ls) => TextFound(t, p, name, ls, x);
      case Number(n) => NumberFound(t, p, name, n, NumberText(n), x);
      case Bool(b) => LiteralFound(t, p, name, v, if b then "true" else "false", x);
      case Null => LiteralFound(t, p, name, v, "null", x);
    }
  }

  /** The bracket, what follows it, the members up to end, and the other bracket. */
  lemma CompositeLaid(t: string, p: nat, obj: bool, front: string, members: seq<Member>, x: nat) returns (end: nat)
    requires Printed(t, p, Composite(obj, front, members), x)
    ensures Stands(t, p, Opener(obj)) && Stands(t, p + 1, front) && AllPrinted(t, p + 1 + |front|, obj, members, end)
    ensures Stands(t, end, Closer(obj)) && x == end + 1
  {
    var inner := PrintMembers(obj, members);
    Pieces(t, p, Print(Composite(obj, front, members)), Opener(obj), front, inner, Closer(obj), x);
    end := p + 1 + |front| + |inner|;
    LaidInside(t, p, front, inner, x, obj, members, end);
  }

  lemma LaidInside(t: string, p: nat, front: string, inner: string, x: nat, obj: bool, members: seq<Member>, end: nat)
    requires Laid(t, p, Opener(obj), front, inner, Closer(obj), x) && inner == PrintMembers(obj, members) && end == p + 1 + |front| + |inner|
    ensures Stands(t, p, Opener(obj)) && Stands(t, p + 1, front) && AllPrinted(t, p + 1 + |front|, obj, members, end)
    ensures Stands(t, end, Closer(obj)) && x == end + 1
  {
    LaidPieces(t, p, Opener(obj), front, inner, Closer(obj), x, p + 1, p + 1 + |front|);
    AllPrintedAs(t, p + 1 + |front|, obj, members, inner, end);
  }

  lemma CompositeItems(t: string, p: nat, obj: bool, members: seq<Member>, front: string, x: nat)
    requires Gap(front) && Stands(t, p, Opener(obj)) && Stands(t, p + 1, front) && Listed(t, p + 1 + |front|, obj, members, x)
    ensures t[p] == Opener(obj)[0] && Listed(t, p + 1, obj, members, x)
  {
    CharAt(t, p, Opener(obj), 0);
    GapStands(t, p + 1, front);
    SkipGap(t, p + 1, p + 1 + |front|, TypeOf(obj));
  }

  lemma CompositeFound(t: string, p: nat, name: Name, obj: bool, front: string, members: seq<Member>, x: nat)
    requires Gap(front) && Stands(t, p, Opener(obj)) && Stands(t, p + 1, front) && Listed(t, p + 1 + |front|, obj, members, x) && x < |t|
    ensures Found(t, p, name, Composite(obj, front, members), x)
  {
    CompositeItems(t, p, obj, members, front, x);
  }

  /** The document t is the value v. */
  ghost predicate ParsedAs(t: string, v: Value) {
    forall u :: u == t ==> Parse(u).Some? && Is(Parse(u).value, v) && Parse(u).value.name == NoName
  }

  lemma ParseFound(t: string, p: nat, obj: bool, front: string, members: seq<Member>, ws: string, x: nat)
    requires Blanks(ws) && Stands(t, 0, ws) && p == |ws| && Gap(front)
    requires Stands(t, p, Opener(obj)) && Stands(t, p + 1, front) && Listed(t, p + 1 + |front|, obj, members, x)
    ensures ParsedAs(t, Composite(obj, front, members))
  {
    CompositeItems(t, p, obj, members, front, x);
    SkipBlanks(t, 0, ws);
  }

  lemma Inside(ws: string, body: string, rest: string, t: string)
    requires t == ws + (body + rest)
    ensures Stands(t, 0, ws) && Stands(t, |ws|, body)
  {
  }

  lemma ParsePrinted(t: string, p: nat, obj: bool, front: string, members: seq<Member>, ws: string, x: nat)
    requires Gap(front) && AllPrintable(members) && Blanks(ws) && Stands(t, 0, ws) && p == |ws|
    requires Printed(t, p, Composite(obj, front, members), x)
    ensures ParsedAs(t, Composite(obj, front, members))
  {
    CompositeListed(t, p, obj, front, members, x);
    ParseFound(t, p, obj, front, members, ws, x);
  }

  /** Every printed object or array is parsed to exactly that value, whatever blanks stand in
      front and whatever follows. */
  lemma ParsePrint(v: Value, ws: string, rest: string)
    requires v.Composite? && Printable(v) && Blanks(ws)
    ensures var t := ws + (Print(v) + rest);
            Parse(t).Some? && Is(Parse(t).value, v) && Parse(t).value.name == NoName
  {
    var t := ws + (Print(v) + rest);
    Inside(ws, Print(v), rest, t);
    PrintedAs(t, |ws|, v, Print(v), |ws| + |Print(v)|);
    ParsePrinted(t, |ws|, v.obj, v.front, v.members, ws, |ws| + |Print(v)|);
  }
}
