/** The key list of getKeysResponseStr read back with the grammar of lib/tiny-json.c. */
module KeyList {
  import opened Options
  import opened JsonText
  import opened JsonGrammar
  import opened JsonPrinter
  import opened JsonRoundTrip
  import Framing
  import Hex

  /** A string spelled character by character. */
  function AsIs(s: string): (r: seq<Letter>)
    ensures |r| == |s| && forall k :: 0 <= k < |s| ==> r[k] == Plain(s[k])
  {
    seq(|s|, k requires 0 <= k < |s| => Plain(s[k]))
  }

  /** A list of hexadecimal keys as a JSON array, a comma behind each but the last. */
  function KeyMember(keys: seq<string>, i: nat): Member
    requires i < |keys|
  {
    Member([], "", "", Text(AsIs("0x" + keys[i])), if i + 1 < |keys| then "," else "")
  }

  function KeyMembers(keys: seq<string>): (r: seq<Member>)
    ensures |r| == |keys| && forall i :: 0 <= i < |keys| ==> r[i] == KeyMember(keys, i)
  {
    seq(|keys|, i requires 0 <= i < |keys| => KeyMember(keys, i))
  }

  lemma {:induction false} KeysPrintable(members: seq<Member>)
    requires forall i :: 0 <= i < |members| ==> members[i].key == [] && members[i].val.Text? && AllSpellable(members[i].val.ls)
    requires forall i :: 0 <= i < |members| ==> members[i].before == "" && members[i].after == "" && Gap(members[i].gap)
    ensures AllPrintable(members)
  {
    if members != [] {
      var m := members[0];
      KeysPrintable(members[1..]);
      assert Printable(m.val) && !Primitive(m.val);
      assert Blanks(m.before) && Blanks(m.after) && Gap(m.gap);
    }
  }

  lemma {:induction false} AsIsSpelled(s: string)
    ensures Spelled(AsIs(s)) == s + "\"" && Meant(AsIs(s)) == s
    decreases |s|
  {
    if s != "" {
      AsIsSpelled(s[1..]);
      assert AsIs(s)[1..] == AsIs(s[1..]) && s == [s[0]] + s[1..];
    }
  }

  lemma QuoteKey(key: string)
    ensures Quote(AsIs("0x" + key)) == "\"0x" + key + "\""
  {
    AsIsSpelled("0x" + key);
  }

  lemma KeySpellable(key: string)
    requires Hex.AllHex(key)
    ensures AllSpellable(AsIs("0x" + key))
  {
  }

  function Tail(keys: seq<string>, i: nat): string
    requires i <= |keys|
  {
    PrintMembers(false, KeyMembers(keys)[i..])
  }

  lemma TailCons(keys: seq<string>, i: nat)
    requires i < |keys|
    ensures Tail(keys, i) == "\"0x" + keys[i] + "\"" + (if i + 1 < |keys| then "," else "") + Tail(keys, i + 1)
  {
    var members, q, s := KeyMembers(keys)[i..], "\"0x" + keys[i] + "\"", if i + 1 < |keys| then "," else "";
    assert members[1..] == KeyMembers(keys)[i + 1..] && members[0] == KeyMember(keys, i);
    QuoteKey(keys[i]);
    assert Print(members[0].val) == q;
    assert Tail(keys, i) == "" + (q + (s + Tail(keys, i + 1)));
    Assoc(q, s, Tail(keys, i + 1));
  }

  lemma {:induction false} QuotedIsTail(keys: seq<string>, i: nat)
    requires i <= |keys|
    ensures Framing.Quoted(keys, i) + Tail(keys, i) == Framing.Quoted(keys, |keys|)
    decreases |keys| - i
  {
    if i < |keys| {
      QuotedIsTail(keys, i + 1);
      TailCons(keys, i);
      var s := if i + 1 < |keys| then "," else "";
      Shift(Framing.Quoted(keys, i), "\"0x", keys[i], "\"", s, Tail(keys, i + 1));
    } else {
      assert KeyMembers(keys)[i..] == [];
    }
  }

  lemma Shift(a: string, b: string, c: string, d: string, e: string, f: string)
    ensures a + (b + c + d + e + f) == a + b + c + d + e + f
  {
  }

  lemma BodyPrinted(keys: seq<string>)
    ensures Framing.KeysBody(keys) == Print(Composite(false, "", KeyMembers(keys)))
  {
    QuotedIsTail(keys, 0);
    assert KeyMembers(keys)[0..] == KeyMembers(keys);
    assert Framing.Quoted(keys, 0) == "";
  }

  lemma {:induction false} KidAt(kids: seq<Tree>, members: seq<Member>, i: nat)
    requires AllAre(kids, false, members) && i < |members| && members[i].val.Text?
    ensures i < |kids| == |members| && kids[i].Scalar? && kids[i].name == NoName && kids[i].typ == TEXT && kids[i].text == Meant(members[i].val.ls)
  {
    if i > 0 { KidAt(kids[1..], members[1..], i - 1); }
  }

  lemma KidsAreKeys(kids: seq<Tree>, keys: seq<string>)
    requires AllAre(kids, false, KeyMembers(keys))
    ensures |kids| == |keys|
    ensures forall i :: 0 <= i < |keys| ==> kids[i].Scalar? && kids[i].typ == TEXT && kids[i].text == "0x" + keys[i]
  {
    forall i | 0 <= i < |keys|
      ensures i < |kids| && kids[i].Scalar? && kids[i].typ == TEXT && kids[i].text == "0x" + keys[i]
    {
      KidAt(kids, KeyMembers(keys), i);
      AsIsSpelled("0x" + keys[i]);
    }
  }

  lemma ListParsed(members: seq<Member>, rest: string, t: string) returns (kids: seq<Tree>)
    requires AllPrintable(members) && t == Print(Composite(false, "", members)) + rest
    ensures Parse(t) == Some(Container(NoName, ARRAY, kids)) && AllAre(kids, false, members)
  {
    ParsePrint(Composite(false, "", members), "", rest);
    assert "" + t == t;
    kids := Parse(t).value.kids;
  }

  /** The list holds the keys, each as a string, in their order, and nothing else. */
  lemma KeysParsed(keys: seq<string>, rest: string) returns (kids: seq<Tree>)
    requires forall k :: 0 <= k < |keys| ==> Hex.AllHex(keys[k])
    ensures Parse(Framing.KeysBody(keys) + rest) == Some(Container(NoName, ARRAY, kids)) && |kids| == |keys|
    ensures forall i :: 0 <= i < |keys| ==> kids[i].Scalar? && kids[i].typ == TEXT && kids[i].text == "0x" + keys[i]
  {
    BodyPrinted(keys);
    forall i | 0 <= i < |keys| ensures AllSpellable(AsIs("0x" + keys[i])) { KeySpellable(keys[i]); }
    KeysPrintable(KeyMembers(keys));
    kids := ListParsed(KeyMembers(keys), rest, Framing.KeysBody(keys) + rest);
    KidsAreKeys(kids, keys);
  }
}
