/** The converse of the round trip: whatever the parser accepts is a printed value, so that the
    printer describes the accepted language exactly. */
module JsonLanguage {
  import opened Options
  import opened JsonText
  import opened JsonNumbers
  import opened JsonGrammar
  import opened JsonPrinter
  import opened JsonRoundTrip
  import Hex

  // ----- text at a position

  lemma Joined(t: string, p: nat, a: string, b: string)
    requires Stands(t, p, a) && Stands(t, p + |a|, b)
    ensures Stands(t, p, a + b)
  {
  }

  lemma SliceStands(t: string, p: nat, q: nat)
    requires p <= q <= |t|
    ensures Stands(t, p, t[p..q])
  {
  }

  lemma JoinedFour(t: string, p: nat, a: string, b: string, c: string, d: string, x: nat, y: nat, z: nat)
    requires Stands(t, p, a) && x == p + |a| && Stands(t, x, b) && y == x + |b| && Stands(t, y, c) && z == y + |c| && Stands(t, z, d)
    ensures Stands(t, p, a + (b + (c + d))) && |a + (b + (c + d))| == z + |d| - p
  {
    Joined(t, y, c, d);
    Joined(t, x, b, c + d);
    Joined(t, p, a, b + (c + d));
  }

  // ----- strings

  lemma PlainFound(t: string, p: nat)
    requires p < |t| && t[p] != '\"' && t[p] != '\\'
    ensures var l := Plain(t[p]); Spellable(l) && Stands(t, p, Spelling(l)) && StringChar(t, p) == Some((Meaning(l), |Spelling(l)|))
  {
  }

  lemma EscapeFound(t: string, p: nat)
    requires p + 1 < |t| && t[p] == '\\' && t[p + 1] != 'u' && StringChar(t, p).Some?
    ensures var l := Escaped(t[p + 1]); Spellable(l) && Stands(t, p, Spelling(l)) && StringChar(t, p) == Some((Meaning(l), |Spelling(l)|))
  {
    EscapeTable();
  }

  lemma DigitsFound(t: string, p: nat, hex: string)
    requires FourHex(t, p) && hex == t[p..p + 4]
    ensures |hex| == 4 && Stands(t, p, hex) && forall k :: 0 <= k < 4 ==> HexChar(hex[k])
  {
    forall k | 0 <= k < 4 ensures HexChar(hex[k]) {
      assert hex[k] == t[p + k];
      HexCharIs(t[p + k]);
    }
  }

  lemma UnicodeFound(t: string, p: nat, l: Letter)
    requires p + 6 <= |t| && t[p] == '\\' && t[p + 1] == 'u' && FourHex(t, p + 2) && l == Unicode(t[p + 2..p + 6])
    ensures Spellable(l) && Stands(t, p, Spelling(l)) && StringChar(t, p) == Some((Meaning(l), |Spelling(l)|))
  {
    DigitsFound(t, p + 2, l.hex);
    Joined(t, p, ['\\', 'u'], l.hex);
  }

  lemma LetterFound(t: string, p: nat) returns (l: Letter)
    requires p < |t| && t[p] != '\"' && StringChar(t, p).Some?
    ensures Spellable(l) && Stands(t, p, Spelling(l)) && StringChar(t, p) == Some((Meaning(l), |Spelling(l)|))
  {
    if t[p] != '\\' {
      l := Plain(t[p]);
      PlainFound(t, p);
    } else if At(t, p + 1) == 'u' {
      l := Unicode(t[p + 2..p + 6]);
      UnicodeFound(t, p, l);
    } else {
      l := Escaped(t[p + 1]);
      EscapeFound(t, p);
    }
  }

  lemma SpelledCons(t: string, p: nat, l: Letter, ls: seq<Letter>, q: nat, e: nat)
    requires Stands(t, p, Spelling(l)) && q == p + |Spelling(l)| && SpelledAt(t, q, ls, e)
    ensures SpelledAt(t, p, [l] + ls, e) && Meant([l] + ls) == [Meaning(l)] + Meant(ls)
  {
    var all := [l] + ls;
    assert all[0] == l && all[1..] == ls;
    assert Spelled(all) == Spelling(l) + Spelled(ls);
    Joined(t, p, Spelling(l), Spelled(ls));
  }

  lemma NoLetters(t: string, p: nat)
    requires p < |t| && t[p] == '\"'
    ensures SpelledAt(t, p, [], p + 1)
  {
    assert Spelled([]) == "\"";
  }

  lemma StringRest(t: string, p: nat, s: string, e: nat) returns (c: char, n: nat, more: string)
    requires p <= |t| && StringAt(t, p) == Some((s, e)) && p < |t| && t[p] != '\"'
    ensures StringChar(t, p) == Some((c, n)) && 1 <= n && p + n <= |t| && StringAt(t, p + n) == Some((more, e)) && s == [c] + more
  {
    c, n := StringChar(t, p).value.0, StringChar(t, p).value.1;
    more := StringAt(t, p + n).value.0;
  }

  /** Every string the parser reads is spelled with such letters. */
  lemma {:induction false} LettersFound(t: string, p: nat, s: string, e: nat) returns (ls: seq<Letter>)
    requires p <= |t| && StringAt(t, p) == Some((s, e))
    ensures AllSpellable(ls) && Meant(ls) == s && SpelledAt(t, p, ls, e)
    decreases |t| - p
  {
    if t[p] == '\"' {
      ls := [];
      NoLetters(t, p);
    } else {
      var c, n, more := StringRest(t, p, s, e);
      var l := LetterFound(t, p);
      var rest := LettersFound(t, p + n, more, e);
      ls := [l] + rest;
      SpelledCons(t, p, l, rest, p + n, e);
    }
  }

  lemma QuoteFound(t: string, p: nat, s: string, e: nat) returns (ls: seq<Letter>)
    requires p < |t| && t[p] == '\"' && StringAt(t, p + 1) == Some((s, e))
    ensures AllSpellable(ls) && Meant(ls) == s && Stands(t, p, Quote(ls)) && e == p + |Quote(ls)|
  {
    ls := LettersFound(t, p + 1, s, e);
    assert Stands(t, p + 1, Spelled(ls));
    Joined(t, p, "\"", Spelled(ls));
  }

  // ----- blanks and keys

  lemma {:induction false} BlanksFound(t: string, p: nat, q: nat)
    requires p <= |t| && GoBlank(t, p) == Some(q)
    ensures forall k :: p <= k < q ==> Blank(t[k])
    decreases |t| - p
  {
    if p < q { BlanksFound(t, p + 1, q); }
  }

  lemma BlanksSlice(t: string, p: nat, q: nat)
    requires p <= |t| && GoBlank(t, p) == Some(q)
    ensures p <= q <= |t| && Blanks(t[p..q]) && Gap(t[p..q])
  {
    BlanksFound(t, p, q);
    forall k | 0 <= k < q - p ensures t[p..q][k] in {' ', '\t', '\n', '\r', '\U{0C}'} { assert Blank(t[p + k]); }
  }

  lemma ColonShape(t: string, e: nat, v: nat) returns (before: string, after: string)
    requires e <= |t| && ValueStart(t, e) == Some(v)
    ensures Blanks(before) && Blanks(after) && Stands(t, e, before + (":" + after)) && v == e + |before + (":" + after)|
  {
    var c := GoBlank(t, e).value;
    before, after := t[e..c], t[c + 1..v];
    BlanksSlice(t, e, c);
    BlanksSlice(t, c + 1, v);
    SliceStands(t, e, c);
    SliceStands(t, c + 1, v);
    Joined(t, c, ":", after);
    Joined(t, e, before, ":" + after);
  }

  lemma NameRest(t: string, q: nat, name: Name, v: nat) returns (s: string, e: nat)
    requires q < |t| && HeadAt(t, q, OBJ) == Some((name, v))
    ensures t[q] == '\"' && StringAt(t, q + 1) == Some((s, e)) && e <= |t| && ValueStart(t, e) == Some(v) && name == Named(q + 1, s)
  {
    s, e := StringAt(t, q + 1).value.0, StringAt(t, q + 1).value.1;
  }

  lemma HeadShape(t: string, q: nat, obj: bool, name: Name, v: nat) returns (key: seq<Letter>, before: string, after: string)
    requires q < |t| && HeadAt(t, q, TypeOf(obj)) == Some((name, v))
    ensures AllSpellable(key) && Blanks(before) && Blanks(after) && name == NameAt(obj, q, key)
    ensures Stands(t, q, PrintKey(obj, key, before, after)) && v == q + |PrintKey(obj, key, before, after)|
  {
    key, before, after := [], "", "";
    if obj {
      var s, e := NameRest(t, q, name, v);
      key := QuoteFound(t, q, s, e);
      before, after := ColonShape(t, e, v);
      Joined(t, q, Quote(key), before + (":" + after));
    }
  }

  // ----- scalars

  /** Reading goes on at e behind a value that ends at x. */
  ghost predicate Ends(t: string, v: Value, x: nat, e: nat) {
    if Primitive(v) then x < |t| && EndOfPrimitive(t[x]) && e == After(t, x) else e == x
  }

  lemma TextShape(t: string, p: nat, k: Token, name: Name) returns (v: Value, x: nat)
    requires p < |t| && t[p] == '\"' && ScalarAt(t, p) == Some(k)
    ensures !v.Composite? && Printable(v) && Printed(t, p, v, x) && Is(Scalar(name, k.typ, k.pos, k.text), v) && Ends(t, v, x, k.next)
  {
    var ls := QuoteFound(t, p, k.text, k.next);
    v, x := Text(ls), k.next;
  }

  lemma LiteralShape(t: string, p: nat, k: Token, name: Name, lit: string, typ: JType, v: Value)
    requires p < |t| && LiteralToken(t, p, lit, typ) == Some(k)
    requires (v == Bool(true) && lit == "true" && typ == BOOLEAN) || (v == Bool(false) && lit == "false" && typ == BOOLEAN) || (v == Null && lit == "null" && typ == NULL)
    ensures Printed(t, p, v, p + |lit|) && Is(Scalar(name, k.typ, k.pos, k.text), v) && Ends(t, v, p + |lit|, k.next)
  {
    assert Print(v) == lit;
    SliceStands(t, p, p + |lit|);
  }

  lemma NumberToken(t: string, p: nat, k: Token) returns (x: nat)
    requires p < |t| && t[p] !in {'\"', 't', 'f', 'n'} && ScalarAt(t, p) == Some(k)
    ensures p <= x < |t| && NumberAt(t, p) == Some((x, k.typ)) && k.text == t[p..x] && k.next == After(t, x)
  {
    x := NumberAt(t, p).value.0;
  }

  lemma NumberFits(t: string, p: nat, k: Token, name: Name) returns (v: Value, x: nat)
    requires p < |t| && t[p] !in {'\"', 't', 'f', 'n'} && ScalarAt(t, p) == Some(k)
    ensures !v.Composite? && Printable(v) && Printed(t, p, v, x) && Is(Scalar(name, k.typ, k.pos, k.text), v) && Ends(t, v, x, k.next)
  {
    x := NumberToken(t, p, k);
    var n := NumberShape(t, p, x, k.typ);
    v := Number(n);
    SliceStands(t, p, x);
    PrintedAs(t, p, v, t[p..x], x);
  }

  lemma ScalarShape(t: string, p: nat, k: Token, name: Name) returns (v: Value, x: nat)
    requires p < |t| && ScalarAt(t, p) == Some(k)
    ensures !v.Composite? && Printable(v) && Printed(t, p, v, x) && Is(Scalar(name, k.typ, k.pos, k.text), v) && Ends(t, v, x, k.next)
  {
    if t[p] == '\"' {
      v, x := TextShape(t, p, k, name);
    } else if t[p] == 't' {
      v, x := Bool(true), p + 4;
      LiteralShape(t, p, k, name, "true", BOOLEAN, v);
    } else if t[p] == 'f' {
      v, x := Bool(false), p + 5;
      LiteralShape(t, p, k, name, "false", BOOLEAN, v);
    } else if t[p] == 'n' {
      v, x := Null, p + 4;
      LiteralShape(t, p, k, name, "null", NULL, v);
    } else {
      v, x := NumberFits(t, p, k, name);
    }
  }

  // ----- bodies

  /** From p on stand the gap front, the members up to end and the closing bracket. */
  ghost predicate Body(t: string, p: nat, obj: bool, front: string, members: seq<Member>, end: nat) {
    Gap(front) && Stands(t, p, front) && AllPrinted(t, p + |front|, obj, members, end) && Stands(t, end, Closer(obj))
  }

  lemma BodyComma(t: string, p: nat, q: nat, obj: bool, front: string, members: seq<Member>, end: nat)
    requires p <= |t| && GoBlank(t, p) == Some(q) && t[q] == ',' && Body(t, q + 1, obj, front, members, end)
    ensures Body(t, p, obj, t[p..q + 1] + front, members, end)
  {
    BlanksSlice(t, p, q);
    SliceStands(t, p, q + 1);
    Joined(t, p, t[p..q + 1], front);
    GapJoin(t, p, q);
    GapConcat(t[p..q + 1], front);
    AllPrintedMoved(t, q + 1 + |front|, p + |t[p..q + 1] + front|, obj, members, end);
  }

  lemma GapJoin(t: string, p: nat, q: nat)
    requires p <= q < |t| && Gap(t[p..q]) && t[q] == ','
    ensures Gap(t[p..q + 1])
  {
    assert t[p..q + 1] == t[p..q] + [t[q]];
  }

  lemma GapConcat(a: string, b: string)
    requires Gap(a) && Gap(b)
    ensures Gap(a + b)
  {
  }

  lemma AllPrintedMoved(t: string, p: nat, q: nat, obj: bool, members: seq<Member>, end: nat)
    requires AllPrinted(t, p, obj, members, end) && p == q
    ensures AllPrinted(t, q, obj, members, end)
  {
  }

  lemma BodyClose(t: string, p: nat, q: nat, obj: bool)
    requires p <= |t| && GoBlank(t, p) == Some(q) && t[q] == Close(TypeOf(obj))
    ensures Body(t, p, obj, t[p..q], [], q)
  {
    BlanksSlice(t, p, q);
    SliceStands(t, p, q);
    AllPrintedAs(t, q, obj, [], "", q);
  }

  lemma AllPrintedCons(t: string, p: nat, obj: bool, m: Member, others: seq<Member>, x: nat, y: nat, end: nat)
    requires KeyPrinted(t, p, obj, m, x) && Printed(t, x, m.val, y) && Stands(t, y, m.gap) && AllPrinted(t, y + |m.gap|, obj, others, end)
    ensures AllPrinted(t, p, obj, [m] + others, end)
  {
    AllPrintedText(t, p, obj, m, others, PrintKey(obj, m.key, m.before, m.after), Print(m.val), PrintMembers(obj, others), x, y, end);
  }

  lemma AllPrintedText(t: string, p: nat, obj: bool, m: Member, others: seq<Member>, k: string, v: string, more: string, x: nat, y: nat, end: nat)
    requires k == PrintKey(obj, m.key, m.before, m.after) && v == Print(m.val) && more == PrintMembers(obj, others)
    requires Stands(t, p, k) && x == p + |k| && Stands(t, x, v) && y == x + |v| && Stands(t, y, m.gap)
    requires Stands(t, y + |m.gap|, more) && end == y + |m.gap| + |more|
    ensures AllPrinted(t, p, obj, [m] + others, end)
  {
    JoinedFour(t, p, k, v, m.gap, more, x, y, y + |m.gap|);
    MembersText(obj, m, others, k, v, more);
    AllPrintedAs(t, p, obj, [m] + others, k + (v + (m.gap + more)), end);
  }

  lemma MembersText(obj: bool, m: Member, others: seq<Member>, k: string, v: string, more: string)
    requires k == PrintKey(obj, m.key, m.before, m.after) && v == Print(m.val) && more == PrintMembers(obj, others)
    ensures PrintMembers(obj, [m] + others) == k + (v + (m.gap + more))
  {
    assert ([m] + others)[1..] == others;
  }

  /** The gap behind a value that ends at x, where reading goes on at e with the gap front. */
  lemma GapShape(t: string, v: Value, x: nat, e: nat, front: string)
    requires x <= |t| && Ends(t, v, x, e) && Gap(front) && Stands(t, e, front)
    ensures x <= e <= |t| && Gap(t[x..e] + front) && Stands(t, x, t[x..e] + front)
    ensures Primitive(v) && t[x..e] + front == "" ==> x < |t| && EndOfBlock(t[x])
  {
    SliceStands(t, x, e);
    Joined(t, x, t[x..e], front);
    if e == x + 1 { assert t[x..e] == [t[x]]; }
    GapConcat(t[x..e], front);
  }

  /** A list of members does not start like a closing bracket. */
  lemma MembersStart(t: string, p: nat, obj: bool, members: seq<Member>, end: nat)
    requires members != [] && AllPrintable(members) && AllPrinted(t, p, obj, members, end)
    ensures p < |t| && Starts(t[p])
  {
    var x, y := MembersLaid(t, p, obj, members, end);
    FirstStarts(t, x, members[0].val, y);
    KeyStarts(t, p, obj, members[0], x);
  }

  lemma KeyStarts(t: string, p: nat, obj: bool, m: Member, x: nat)
    requires KeyPrinted(t, p, obj, m, x) && x < |t| && Starts(t[x])
    ensures p < |t| && Starts(t[p])
  {
    var k := PrintKey(obj, m.key, m.before, m.after);
    if obj { CharAt(t, p, k, 0); }
  }

  lemma PrintableCons(m: Member, others: seq<Member>)
    requires AllSpellable(m.key) && Printable(m.val) && Blanks(m.before) && Blanks(m.after) && Gap(m.gap) && AllPrintable(others)
    requires Primitive(m.val) && others != [] ==> m.gap != ""
    ensures AllPrintable([m] + others)
  {
    assert ([m] + others)[1..] == others;
  }

  /** A member m in front of a body, a gap in front of it. */
  lemma BodyItem(t: string, p: nat, q: nat, obj: bool, m: Member, val: Value, gap: string, others: seq<Member>, x: nat, y: nat, end: nat)
    requires p <= |t| && GoBlank(t, p) == Some(q) && m.val == val && m.gap == gap && KeyPrinted(t, q, obj, m, x) && Printed(t, x, val, y)
    requires Stands(t, y, gap) && AllPrinted(t, y + |gap|, obj, others, end) && Stands(t, end, Closer(obj))
    ensures Body(t, p, obj, t[p..q], [m] + others, end)
  {
    BlanksSlice(t, p, q);
    SliceStands(t, p, q);
    AllPrintedCons(t, q, obj, m, others, x, y, end);
  }

  lemma GapPart(t: string, obj: bool, val: Value, x: nat, e: nat, front: string, others: seq<Member>, end: nat) returns (gap: string)
    requires x <= |t| && Ends(t, val, x, e) && AllPrintable(others) && Body(t, e, obj, front, others, end)
    ensures Gap(gap) && Stands(t, x, gap) && AllPrinted(t, x + |gap|, obj, others, end) && (Primitive(val) && others != [] ==> gap != "")
    ensures Stands(t, end, Closer(obj))
  {
    GapShape(t, val, x, e, front);
    gap := t[x..e] + front;
    AllPrintedMoved(t, e + |front|, x + |gap|, obj, others, end);
    GapNeeded(t, val, x, obj, gap, others, end);
  }

  lemma KeyPart(t: string, q: nat, obj: bool, name: Name, v: nat, val: Value, gap: string) returns (m: Member)
    requires q < |t| && HeadIs(t, q, obj, name, v)
    ensures m.val == val && m.gap == gap && AllSpellable(m.key) && Blanks(m.before) && Blanks(m.after)
    ensures KeyPrinted(t, q, obj, m, v) && name == NameAt(obj, q, m.key)
  {
    var key, before, after := HeadShape(t, q, obj, name, v);
    m := Member(key, before, after, val, gap);
    KeyPrintedAs(t, q, obj, m, PrintKey(obj, key, before, after), v);
  }

  lemma MemberMade(t: string, q: nat, obj: bool, name: Name, v: nat, val: Value, gap: string, others: seq<Member>) returns (m: Member)
    requires q < |t| && HeadIs(t, q, obj, name, v) && Printable(val) && Gap(gap) && AllPrintable(others)
    requires Primitive(val) && others != [] ==> gap != ""
    ensures m.val == val && m.gap == gap && KeyPrinted(t, q, obj, m, v) && name == NameAt(obj, q, m.key) && AllPrintable([m] + others)
  {
    m := KeyPart(t, q, obj, name, v, val, gap);
    PrintableCons(m, others);
  }

  /** Behind a primitive only the closing bracket needs no gap. */
  lemma GapNeeded(t: string, v: Value, x: nat, obj: bool, gap: string, others: seq<Member>, end: nat)
    requires AllPrintable(others) && AllPrinted(t, x + |gap|, obj, others, end) && (Primitive(v) && gap == "" ==> x < |t| && EndOfBlock(t[x]))
    ensures Primitive(v) && others != [] ==> gap != ""
  {
    if others != [] { MembersStart(t, x + |gap|, obj, others, end); }
  }

  // ----- values

  lemma ItemRest(t: string, p: nat, q: nat, typ: JType, kids: seq<Tree>, e: nat) returns (name: Name, v: nat, tree: Tree, f: nat, more: seq<Tree>)
    requires p <= |t| && GoBlank(t, p) == Some(q) && t[q] != ',' && t[q] != Close(typ) && Items(t, p, typ) == Some((kids, e))
    ensures HeadAt(t, q, typ) == Some((name, v)) && p <= q <= v < |t| && ValueAt(t, v, name) == Some((tree, f)) && v < f <= |t|
    ensures Items(t, f, typ) == Some((more, e)) && kids == [tree] + more
  {
    name, v := HeadAt(t, q, typ).value.0, HeadAt(t, q, typ).value.1;
    tree, f := ValueAt(t, v, name).value.0, ValueAt(t, v, name).value.1;
    more := Items(t, f, typ).value.0;
  }

  lemma {:induction false} ItemsShape(t: string, p: nat, obj: bool, kids: seq<Tree>, e: nat) returns (front: string, members: seq<Member>, end: nat)
    requires p <= |t| && Items(t, p, TypeOf(obj)) == Some((kids, e))
    ensures Body(t, p, obj, front, members, end) && e == end + 1 && AllPrintable(members) && AllAre(kids, obj, members)
    decreases |t| - p, 1
  {
    var q := GoBlank(t, p).value;
    if t[q] == ',' {
      front, members, end := ItemsShape(t, q + 1, obj, kids, e);
      BodyComma(t, p, q, obj, front, members, end);
      front := t[p..q + 1] + front;
    } else if t[q] == Close(TypeOf(obj)) {
      front, members, end := t[p..q], [], q;
      BodyClose(t, p, q, obj);
    } else {
      var name, v, tree, f, more := ItemRest(t, p, q, TypeOf(obj), kids, e);
      var val, x := ValueShape(t, v, name, tree, f);
      var gap, others, z := ItemsShape(t, f, obj, more, e);
      var m := MemberAdded(t, p, q, obj, name, v, val, x, f, gap, others, z);
      front, members, end := t[p..q], [m] + others, z;
      AreCons(tree, more, obj, members);
    }
  }

  ghost predicate HeadIs(t: string, q: nat, obj: bool, name: Name, v: nat)
    requires q < |t|
  {
    forall typ :: typ == TypeOf(obj) ==> HeadAt(t, q, typ) == Some((name, v))
  }

  /** The member whose value stands from v to x, in front of the others. */
  lemma MemberAdded(t: string, p: nat, q: nat, obj: bool, name: Name, v: nat, val: Value, x: nat, f: nat, front: string, others: seq<Member>, end: nat)
    returns (m: Member)
    requires p <= |t| && GoBlank(t, p) == Some(q) && HeadIs(t, q, obj, name, v)
    requires Printable(val) && Printed(t, v, val, x) && x <= |t| && Ends(t, val, x, f)
    requires Body(t, f, obj, front, others, end) && AllPrintable(others)
    ensures Body(t, p, obj, t[p..q], [m] + others, end) && AllPrintable([m] + others) && m.val == val && name == NameAt(obj, q, m.key)
  {
    var gap := GapPart(t, obj, val, x, f, front, others, end);
    m := MemberMade(t, q, obj, name, v, val, gap, others);
    BodyItem(t, p, q, obj, m, val, gap, others, v, x, end);
  }

  lemma {:induction false} ValueShape(t: string, p: nat, name: Name, tree: Tree, e: nat) returns (v: Value, x: nat)
    requires p < |t| && ValueAt(t, p, name) == Some((tree, e))
    ensures Printable(v) && Printed(t, p, v, x) && x <= |t| && Is(tree, v) && tree.name == name && Ends(t, v, x, e)
    decreases |t| - p, 0
  {
    if Opens(t[p]) {
      var obj := t[p] == '{';
      var kids := ContainerRest(t, p, name, tree, e, obj);
      var front, members, end := ItemsShape(t, p + 1, obj, kids, e);
      v, x := Composite(obj, front, members), e;
      CompositeShape(t, p, obj, front, members, end, e);
    } else {
      var k := ScalarRest(t, p, name, tree, e);
      v, x := ScalarShape(t, p, k, name);
    }
  }

  lemma ContainerRest(t: string, p: nat, name: Name, tree: Tree, e: nat, obj: bool) returns (kids: seq<Tree>)
    requires p < |t| && Opens(t[p]) && obj == (t[p] == '{') && ValueAt(t, p, name) == Some((tree, e))
    ensures Items(t, p + 1, TypeOf(obj)) == Some((kids, e)) && tree == Container(name, TypeOf(obj), kids)
  {
    kids := Items(t, p + 1, OpenType(t[p])).value.0;
  }

  lemma ScalarRest(t: string, p: nat, name: Name, tree: Tree, e: nat) returns (k: Token)
    requires p < |t| && !Opens(t[p]) && ValueAt(t, p, name) == Some((tree, e))
    ensures ScalarAt(t, p) == Some(k) && tree == Scalar(name, k.typ, k.pos, k.text) && e == k.next
  {
    k := ScalarAt(t, p).value;
  }

  lemma CompositeShape(t: string, p: nat, obj: bool, front: string, members: seq<Member>, end: nat, x: nat)
    requires p < |t| && Opens(t[p]) && obj == (t[p] == '{') && Body(t, p + 1, obj, front, members, end) && x == end + 1
    ensures Printed(t, p, Composite(obj, front, members), x) && x <= |t|
  {
    var inner := PrintMembers(obj, members);
    JoinedFour(t, p, Opener(obj), front, inner, Closer(obj), p + 1, p + 1 + |front|, end);
    PrintedAs(t, p, Composite(obj, front, members), Opener(obj) + (front + (inner + Closer(obj))), x);
  }

  lemma DocumentRest(t: string) returns (p: nat, tree: Tree, e: nat)
    requires Parse(t).Some?
    ensures GoBlank(t, 0) == Some(p) && p < |t| && ValueAt(t, p, NoName) == Some((tree, e)) && tree.Container? && Parse(t) == Some(tree)
  {
    p := GoBlank(t, 0).value;
    tree, e := Parse(t).value, Items(t, p + 1, OpenType(t[p])).value.1;
  }

  lemma Outside(t: string, p: nat, x: nat, body: string)
    requires p <= x <= |t| && Stands(t, p, body) && x == p + |body|
    ensures t == t[..p] + (body + t[x..])
  {
    Slice(t, p, body);
    assert t == t[..p] + (t[p..x] + t[x..]);
  }

  /** Every accepted document is blanks, a printed value and anything. */
  lemma ParseShape(t: string, tree: Tree) returns (ws: string, v: Value, rest: string)
    requires Parse(t) == Some(tree)
    ensures Blanks(ws) && v.Composite? && Printable(v) && t == ws + (Print(v) + rest) && Is(tree, v)
  {
    var p, same, e := DocumentRest(t);
    var x;
    v, x := ValueShape(t, p, NoName, tree, e);
    ws, rest := t[..p], t[x..];
    BlanksSlice(t, 0, p);
    Outside(t, p, x, Print(v));
  }

  ghost predicate Document(t: string, ws: string, v: Value, rest: string) {
    Blanks(ws) && v.Composite? && Printable(v) && t == ws + (Print(v) + rest)
  }

  /** The accepted language, exactly. */
  lemma AcceptedIff(t: string)
    ensures Parse(t).Some? <==> exists ws, v, rest :: Document(t, ws, v, rest)
  {
    if Parse(t).Some? {
      var ws, v, rest := ParseShape(t, Parse(t).value);
      assert Document(t, ws, v, rest);
    }
    forall ws, v, rest | Document(t, ws, v, rest) ensures Parse(t).Some? {
      ParsePrint(v, ws, rest);
    }
  }
}
