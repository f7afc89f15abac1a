/** What the parser accepts, said without it: a printer of values with any blanks, commas and
    missing commas the code tolerates, at every place. */
module JsonPrinter {
  import opened Options
  import opened JsonText
  import opened JsonNumbers
  import opened JsonGrammar
  import Hex

  // ----- characters

  /** The blanks, the ends of a primitive and the escapes of lib/tiny-json.c, spelled out. */
  lemma CharacterClasses(c: char)
    ensures Blank(c) <==> c in {' ', '\t', '\n', '\r', '\U{0C}'}
    ensures EndOfBlock(c) <==> c in {'}', ']'}
    ensures EndOfPrimitive(c) <==> c in {',', '}', ']', ' ', '\t', '\n', '\r', '\U{0C}'}
    ensures Escape(c).Some? <==> c in {'\"', '\\', '/', 'b', 'f', 'n', 'r', 't'}
  {
  }

  lemma EscapeTable()
    ensures Escape('\"') == Some('\"') && Escape('\\') == Some('\\') && Escape('/') == Some('/')
    ensures Escape('b') == Some(0x08 as char) && Escape('f') == Some(0x0C as char)
    ensures Escape('n') == Some(0x0A as char) && Escape('r') == Some(0x0D as char) && Escape('t') == Some(0x09 as char)
  {
  }

  /** An escape is a backslash with one of eight characters, or with u and four hexadecimal
      digits, for which a question mark is stored. */
  lemma EscapeRead(t: string, p: nat)
    requires p < |t| && t[p] == '\\'
    ensures StringChar(t, p).Some? <==>
            (p + 1 < |t| && t[p + 1] in {'\"', '\\', '/', 'b', 'f', 'n', 'r', 't'})
            || (p + 5 < |t| && t[p + 1] == 'u' && forall k :: p + 2 <= k < p + 6 ==> t[k] in "0123456789abcdefABCDEF")
    ensures StringChar(t, p).Some? && t[p + 1] == '/' ==> StringChar(t, p).value == ('/', 2)
    ensures StringChar(t, p).Some? && t[p + 1] == 'u' ==> StringChar(t, p).value == ('?', 6)
  {
    forall k | 0 <= k < |t| ensures Hex.IsHexDigit(t[k]) <==> t[k] in "0123456789abcdefABCDEF" {
      Hex.HexAlphabet(0, t[k]);
    }
  }

  // ----- text at a position

  ghost predicate Stands(t: string, p: nat, s: string) { p + |s| <= |t| && forall k :: 0 <= k < |s| ==> t[p + k] == s[k] }

  lemma Split(t: string, p: nat, a: string, b: string)
    requires Stands(t, p, a + b)
    ensures Stands(t, p, a) && Stands(t, p + |a|, b)
  {
    var s := a + b;
    forall k | 0 <= k < |a| ensures t[p + k] == a[k] { assert s[k] == a[k]; }
    forall k | 0 <= k < |b| ensures t[p + |a| + k] == b[k] { assert s[|a| + k] == b[k]; }
  }

  lemma CharAt(t: string, p: nat, s: string, k: nat)
    requires Stands(t, p, s) && k < |s|
    ensures t[p + k] == s[k]
  {
  }

  lemma Slice(t: string, p: nat, s: string)
    requires Stands(t, p, s)
    ensures t[p..p + |s|] == s
  {
  }

  // ----- strings

  predicate HexChar(c: char) { c in "0123456789abcdefABCDEF" }

  lemma HexCharIs(c: char)
    ensures HexChar(c) <==> Hex.IsHexDigit(c)
  {
    Hex.HexAlphabet(0, c);
  }

  /** A character of a string as it may be spelled: as itself, as an escape, or as u with four
      hexadecimal digits. */
  datatype Letter = Plain(c: char) | Escaped(c: char) | Unicode(hex: string)

  ghost predicate Spellable(l: Letter) {
    match l
    case Plain(c) => c != '\"' && c != '\\'
    case Escaped(c) => c in {'\"', '\\', '/', 'b', 'f', 'n', 'r', 't'}
    case Unicode(hex) => |hex| == 4 && forall k :: 0 <= k < 4 ==> HexChar(hex[k])
  }

  ghost predicate AllSpellable(ls: seq<Letter>) { forall k :: 0 <= k < |ls| ==> Spellable(ls[k]) }

  function Spelling(l: Letter): (r: string)
    ensures r != ""
  {
    match l
    case Plain(c) => [c]
    case Escaped(c) => ['\\', c]
    case Unicode(hex) => ['\\', 'u'] + hex
  }

  /** What a letter stands for. */
  function Meaning(l: Letter): char {
    match l
    case Plain(c) => c
    case Escaped(c) =>
      if c == 'b' then 0x08 as char else if c == 'f' then 0x0C as char else if c == 'n' then 0x0A as char
      else if c == 'r' then 0x0D as char else if c == 't' then 0x09 as char else c
    case Unicode(_) => '?'
  }

  /** A string body and its closing quote. */
  function Spelled(ls: seq<Letter>): string {
    if ls == [] then "\"" else Spelling(ls[0]) + Spelled(ls[1..])
  }

  function Meant(ls: seq<Letter>): (r: string)
    ensures |r| == |ls|
  {
    if ls == [] then "" else [Meaning(ls[0])] + Meant(ls[1..])
  }

  lemma HexDigits(t: string, p: nat, hex: string)
    requires Stands(t, p, hex) && |hex| == 4 && forall k :: 0 <= k < 4 ==> HexChar(hex[k])
    ensures FourHex(t, p)
  {
    forall k | p <= k < p + 4 ensures Hex.IsHexDigit(t[k]) {
      CharAt(t, p, hex, k - p);
      HexCharIs(t[k]);
    }
  }

  lemma LetterRead(t: string, p: nat, l: Letter)
    requires Spellable(l) && Stands(t, p, Spelling(l))
    ensures p < |t| && t[p] != '\"' && StringChar(t, p) == Some((Meaning(l), |Spelling(l)|))
  {
    CharAt(t, p, Spelling(l), 0);
    if !l.Plain? { CharAt(t, p, Spelling(l), 1); }
    if l.Unicode? {
      Split(t, p, ['\\', 'u'], l.hex);
      HexDigits(t, p + 2, l.hex);
    }
    EscapeTable();
  }

  lemma StringStep(t: string, p: nat, c: char, n: nat, s: string, e: nat)
    requires p < |t| && t[p] != '\"' && StringChar(t, p) == Some((c, n)) && p + n <= |t| && StringAt(t, p + n) == Some((s, e))
    ensures StringAt(t, p) == Some(([c] + s, e))
  {
  }

  lemma StringCons(t: string, p: nat, ls: seq<Letter>, c: string, more: seq<Letter>, e: nat)
    requires ls != [] && Spellable(ls[0]) && c == Spelling(ls[0]) && more == ls[1..]
    requires Stands(t, p, c) && StringAt(t, p + |c|) == Some((Meant(more), e))
    ensures StringAt(t, p) == Some((Meant(ls), e))
  {
    LetterRead(t, p, ls[0]);
    StringStep(t, p, Meaning(ls[0]), |c|, Meant(more), e);
  }

  lemma Assoc(a: string, b: string, c: string)
    ensures (a + b) + c == a + (b + c)
  {
  }

  /** The letters ls and the closing quote stand from p to e. */
  ghost predicate SpelledAt(t: string, p: nat, ls: seq<Letter>, e: nat) {
    forall u :: u == ls ==> Stands(t, p, Spelled(u)) && e == p + |Spelled(u)|
  }

  lemma EmptyRead(t: string, p: nat, e: nat)
    requires SpelledAt(t, p, [], e)
    ensures p <= |t| && StringAt(t, p) == Some(("", e))
  {
    assert Spelled([]) == "\"";
    CharAt(t, p, "\"", 0);
  }

  lemma SpelledSplit(t: string, p: nat, ls: seq<Letter>, more: seq<Letter>, c: string, e: nat)
    requires ls != [] && more == ls[1..] && SpelledAt(t, p, ls, e) && c == Spelling(ls[0])
    ensures Stands(t, p, c) && SpelledAt(t, p + |c|, more, e)
  {
    assert Spelled(ls) == c + Spelled(more);
    Split(t, p, c, Spelled(more));
  }

  /** Every string, however it is spelled, is read as what it means, whatever follows. */
  lemma {:induction false} LettersRead(t: string, p: nat, ls: seq<Letter>, e: nat)
    requires AllSpellable(ls) && SpelledAt(t, p, ls, e)
    ensures p <= |t| && StringAt(t, p) == Some((Meant(ls), e))
    decreases |ls|
  {
    if ls == [] {
      EmptyRead(t, p, e);
    } else {
      var more, c := ls[1..], Spelling(ls[0]);
      SpelledSplit(t, p, ls, more, c, e);
      LettersRead(t, p + |c|, more, e);
      StringCons(t, p, ls, c, more, e);
    }
  }

  /** A character written the usual way: quote, backslash and five control characters as escapes,
      every other one as itself. */
  function EncodedChar(c: char): string {
    if c == '\"' then "\\\""
    else if c == '\\' then "\\\\"
    else if c == 0x08 as char then "\\b"
    else if c == 0x0C as char then "\\f"
    else if c == 0x0A as char then "\\n"
    else if c == 0x0D as char then "\\r"
    else if c == 0x09 as char then "\\t"
    else [c]
  }

  function Encoded(s: string): string {
    if s == "" then "" else EncodedChar(s[0]) + Encoded(s[1..])
  }

  function LetterOf(c: char): (l: Letter)
    ensures Spellable(l) && Meaning(l) == c && Spelling(l) == EncodedChar(c)
  {
    if c == '\"' || c == '\\' then Escaped(c)
    else if c == 0x08 as char then Escaped('b')
    else if c == 0x0C as char then Escaped('f')
    else if c == 0x0A as char then Escaped('n')
    else if c == 0x0D as char then Escaped('r')
    else if c == 0x09 as char then Escaped('t')
    else Plain(c)
  }

  /** The usual spelling of s. */
  lemma {:induction false} UsualLetters(s: string) returns (ls: seq<Letter>)
    ensures AllSpellable(ls) && Meant(ls) == s && Spelled(ls) == Encoded(s) + "\""
    decreases |s|
  {
    if s == "" {
      ls := [];
    } else {
      var more := UsualLetters(s[1..]);
      ls := [LetterOf(s[0])] + more;
      assert ls[1..] == more && s == [s[0]] + s[1..];
      Assoc(EncodedChar(s[0]), Encoded(s[1..]), "\"");
    }
  }

  /** Every string, written the usual way and closed, is read back, whatever follows. */
  lemma StringRead(s: string, rest: string)
    ensures StringAt(Encoded(s) + "\"" + rest, 0) == Some((s, |Encoded(s)| + 1))
  {
    var ls := UsualLetters(s);
    LettersRead(Encoded(s) + "\"" + rest, 0, ls, |Encoded(s)| + 1);
  }

  // ----- numbers

  /** The parts of a number; frac and power may be empty. */
  datatype Parts = Parts(neg: bool, whole: string, frac: string, letter: string, sign: string, power: string)

  /** A whole part without leading zero; an exponent is a letter, perhaps a sign, and digits. */
  ghost predicate Proper(n: Parts) {
    && Digits(n.whole) && n.whole != "" && (|n.whole| == 1 || n.whole[0] != '0')
    && Digits(n.frac) && Digits(n.power)
    && (if n.letter == "" then n.sign == "" && n.power == "" else n.letter in {"e", "E"} && n.sign in {"", "+", "-"} && n.power != "")
  }

  function Minus(neg: bool): string { if neg then "-" else "" }

  function Point(frac: string): string { if frac == "" then "" else "." + frac }

  function NumberText(n: Parts): string { Minus(n.neg) + (n.whole + (Point(n.frac) + (n.letter + (n.sign + n.power)))) }

  predicate IsReal(n: Parts) { n.frac != "" || n.letter != "" }

  lemma {:induction false} DigitsRead(t: string, p: nat, s: string)
    requires Digits(s) && Stands(t, p, s) && !Digit(At(t, p + |s|))
    ensures DigitsEnd(t, p) == p + |s|
    decreases |s|
  {
    if s != "" {
      CharAt(t, p, s, 0);
      assert s == s[..1] + s[1..];
      Split(t, p, s[..1], s[1..]);
      DigitsRead(t, p + 1, s[1..]);
    }
  }

  lemma WholeRead(t: string, p: nat, neg: bool, whole: string)
    requires Digits(whole) && whole != "" && (|whole| == 1 || whole[0] != '0')
    requires Stands(t, p, Minus(neg)) && Stands(t, p + |Minus(neg)|, whole) && !Digit(At(t, p + |Minus(neg)| + |whole|))
    ensures IntegerEnd(t, p) == Some(p + |Minus(neg)| + |whole|)
  {
    var q := p + |Minus(neg)|;
    if neg { CharAt(t, p, "-", 0); }
    CharAt(t, q, whole, 0);
    DigitsRead(t, q, whole);
  }

  lemma FractionRead(t: string, p: nat, frac: string)
    requires Digits(frac) && Stands(t, p, Point(frac)) && !Digit(At(t, p + |Point(frac)|)) && (frac == "" ==> At(t, p) != '.')
    ensures FractionEnd(t, p) == Some(p + |Point(frac)|)
  {
    if frac != "" {
      CharAt(t, p, "." + frac, 0);
      Split(t, p, ".", frac);
      CharAt(t, p + 1, frac, 0);
      DigitsRead(t, p + 1, frac);
    }
  }

  lemma ExponentRead(t: string, p: nat, letter: string, sign: string, power: string)
    requires if letter == "" then sign == "" && power == "" && At(t, p) != 'e' && At(t, p) != 'E'
             else letter in {"e", "E"} && sign in {"", "+", "-"} && power != ""
    requires Digits(power) && Stands(t, p, letter + (sign + power)) && !Digit(At(t, p + |letter| + |sign| + |power|))
    ensures ExponentEnd(t, p) == Some(p + |letter| + |sign| + |power|)
  {
    if letter != "" {
      Split(t, p, letter, sign + power);
      CharAt(t, p, letter, 0);
      var q := p + 1;
      Split(t, q, sign, power);
      if sign != "" { CharAt(t, q, sign, 0); }
      CharAt(t, q + |sign|, power, 0);
      DigitsRead(t, q + |sign|, power);
    }
  }

  /** Text that cannot go on as a number. */
  lemma EndIsNoDigit(c: char)
    requires EndOfPrimitive(c)
    ensures !Digit(c) && c != '.' && c != 'e' && c != 'E'
  {
  }

  lemma SplitFour(t: string, p: nat, a: string, b: string, c: string, d: string)
    requires Stands(t, p, a + (b + (c + d)))
    ensures Stands(t, p, a) && Stands(t, p + |a|, b) && Stands(t, p + |a| + |b|, c) && Stands(t, p + |a| + |b| + |c|, d)
  {
    Split(t, p, a, b + (c + d));
    Split(t, p + |a|, b, c + d);
    Split(t, p + |a| + |b|, c, d);
  }

  /** The parts of a number, where they stand. */
  lemma PartsStand(t: string, p: nat, n: Parts, a: nat, b: nat, c: nat)
    requires Stands(t, p, NumberText(n)) && a == p + |Minus(n.neg)| + |n.whole| && b == a + |Point(n.frac)|
    requires c == b + |n.letter| + |n.sign| + |n.power|
    ensures Stands(t, p, Minus(n.neg)) && Stands(t, p + |Minus(n.neg)|, n.whole) && Stands(t, a, Point(n.frac))
    ensures Stands(t, b, n.letter + (n.sign + n.power)) && c == p + |NumberText(n)|
  {
    SplitFour(t, p, Minus(n.neg), n.whole, Point(n.frac), n.letter + (n.sign + n.power));
  }

  /** What follows the whole part and the fraction is not a digit. */
  lemma PartsEnd(t: string, n: Parts, a: nat, b: nat, c: nat)
    requires Proper(n) && Stands(t, a, Point(n.frac)) && b == a + |Point(n.frac)| && Stands(t, b, n.letter + (n.sign + n.power))
    requires c == b + |n.letter| + |n.sign| + |n.power| && c < |t| && EndOfPrimitive(t[c])
    ensures !Digit(At(t, b)) && At(t, b) != '.' && (n.letter == "" ==> At(t, b) != 'e' && At(t, b) != 'E')
    ensures !Digit(At(t, a)) && (n.frac == "" ==> At(t, a) != '.')
  {
    EndIsNoDigit(t[c]);
    if n.letter != "" { CharAt(t, b, n.letter + (n.sign + n.power), 0); }
    if n.frac != "" { CharAt(t, a, "." + n.frac, 0); }
  }

  /** Everything the three readers ask for. */
  ghost predicate Ready(t: string, p: nat, n: Parts, a: nat, b: nat, c: nat) {
    && Stands(t, p, Minus(n.neg)) && Stands(t, p + |Minus(n.neg)|, n.whole) && a == p + |Minus(n.neg)| + |n.whole| && !Digit(At(t, a))
    && Stands(t, a, Point(n.frac)) && b == a + |Point(n.frac)| && !Digit(At(t, b)) && (n.frac == "" ==> At(t, a) != '.')
    && Stands(t, b, n.letter + (n.sign + n.power)) && c == b + |n.letter| + |n.sign| + |n.power| && !Digit(At(t, c))
    && (n.letter == "" ==> At(t, b) != 'e' && At(t, b) != 'E')
  }

  lemma NumberReady(t: string, p: nat, n: Parts, a: nat, b: nat, c: nat)
    requires Proper(n) && Stands(t, p, NumberText(n)) && a == p + |Minus(n.neg)| + |n.whole| && b == a + |Point(n.frac)|
    requires c == b + |n.letter| + |n.sign| + |n.power| && c < |t| && EndOfPrimitive(t[c])
    ensures Ready(t, p, n, a, b, c)
  {
    PartsStand(t, p, n, a, b, c);
    PartsEnd(t, n, a, b, c);
    EndIsNoDigit(t[c]);
  }

  lemma WholeEnds(t: string, p: nat, n: Parts, a: nat, b: nat, c: nat)
    requires Proper(n) && Ready(t, p, n, a, b, c)
    ensures IntegerEnd(t, p) == Some(a)
  {
    WholeRead(t, p, n.neg, n.whole);
  }

  lemma FractionEnds(t: string, p: nat, n: Parts, a: nat, b: nat, c: nat)
    requires Proper(n) && Ready(t, p, n, a, b, c)
    ensures FractionEnd(t, a) == Some(b)
  {
    FractionRead(t, a, n.frac);
  }

  lemma ExponentEnds(t: string, p: nat, n: Parts, a: nat, b: nat, c: nat)
    requires Proper(n) && Ready(t, p, n, a, b, c)
    ensures ExponentEnd(t, b) == Some(c)
  {
    ExponentRead(t, b, n.letter, n.sign, n.power);
  }

  /** The value of a number without fraction and exponent. */
  function WholeValue(n: Parts): int
    requires Digits(n.whole)
  {
    if n.neg then 0 - DigitsValue(n.whole) else DigitsValue(n.whole)
  }

  lemma WholeText(t: string, p: nat, n: Parts, a: nat)
    requires Proper(n) && Stands(t, p, Minus(n.neg)) && Stands(t, p + |Minus(n.neg)|, n.whole) && a == p + |Minus(n.neg)| + |n.whole|
    ensures t[p..a] == Minus(n.neg) + n.whole && IsInteger(t[p..a]) && IntegerValue(t[p..a]) == WholeValue(n)
  {
    var s := Minus(n.neg) + n.whole;
    Slice(t, p, Minus(n.neg));
    Slice(t, p + |Minus(n.neg)|, n.whole);
    assert t[p..a] == t[p..p + |Minus(n.neg)|] + t[p + |Minus(n.neg)|..a];
    if n.neg { assert s[1..] == n.whole; }
  }

  lemma NumberIs(t: string, p: nat, a: nat, b: nat, c: nat)
    requires p <= |t| && a <= b <= c < |t| && IntegerEnd(t, p) == Some(a) && FractionEnd(t, a) == Some(b) && ExponentEnd(t, b) == Some(c)
    requires EndOfPrimitive(t[c]) && p <= a && IsInteger(t[p..a])
    ensures a < c ==> NumberAt(t, p) == Some((c, REAL))
    ensures a == c ==> NumberAt(t, p) == if InInt64(IntegerValue(t[p..a])) then Some((a, INTEGER)) else None
  {
  }

  /** Every number that is properly written and properly ended is accepted, with its type: an
      integer exactly if it fits in 64 bits. */
  lemma NumberRead(t: string, p: nat, n: Parts)
    requires Proper(n) && Stands(t, p, NumberText(n)) && p + |NumberText(n)| < |t| && EndOfPrimitive(t[p + |NumberText(n)|])
    ensures IsReal(n) ==> NumberAt(t, p) == Some((p + |NumberText(n)|, REAL))
    ensures !IsReal(n) ==> NumberAt(t, p) == if InInt64(WholeValue(n)) then Some((p + |NumberText(n)|, INTEGER)) else None
  {
    var a := p + |Minus(n.neg)| + |n.whole|;
    var b := a + |Point(n.frac)|;
    var c := b + |n.letter| + |n.sign| + |n.power|;
    PartsStand(t, p, n, a, b, c);
    NumberReady(t, p, n, a, b, c);
    WholeEnds(t, p, n, a, b, c);
    FractionEnds(t, p, n, a, b, c);
    ExponentEnds(t, p, n, a, b, c);
    WholeText(t, p, n, a);
    NumberIs(t, p, a, b, c);
  }

  lemma RunText(t: string, p: nat, e: nat)
    requires p <= |t| && e == DigitsEnd(t, p)
    ensures Digits(t[p..e])
  {
  }

  lemma WholeFound(t: string, p: nat, a: nat) returns (neg: bool, whole: string)
    requires p <= |t| && IntegerEnd(t, p) == Some(a)
    ensures Digits(whole) && whole != "" && (|whole| == 1 || whole[0] != '0') && t[p..a] == Minus(neg) + whole
  {
    neg := At(t, p) == '-';
    var q := if neg then p + 1 else p;
    whole := t[q..a];
    assert t[p..a] == t[p..q] + whole;
    if neg { assert t[p..q] == "-"; }
  }

  lemma FractionFound(t: string, a: nat, b: nat) returns (frac: string)
    requires a <= |t| && FractionEnd(t, a) == Some(b)
    ensures Digits(frac) && t[a..b] == Point(frac)
  {
    frac := "";
    if a < b {
      frac := t[a + 1..b];
      assert t[a..b] == t[a..a + 1] + frac && t[a..a + 1] == ".";
    }
  }

  lemma ExponentFound(t: string, b: nat, c: nat) returns (letter: string, sign: string, power: string)
    requires b <= |t| && ExponentEnd(t, b) == Some(c)
    ensures Digits(power) && t[b..c] == letter + (sign + power)
    ensures if letter == "" then sign == "" && power == "" else letter in {"e", "E"} && sign in {"", "+", "-"} && power != ""
  {
    letter, sign, power := "", "", "";
    if b < c {
      var q := if At(t, b + 1) == '-' || At(t, b + 1) == '+' then b + 2 else b + 1;
      letter, sign, power := t[b..b + 1], t[b + 1..q], t[q..c];
      assert letter == [t[b]] && (q == b + 2 ==> sign == [t[b + 1]]);
      assert t[b..c] == letter + (sign + power);
    }
  }

  lemma NumberPieces(t: string, p: nat, e: nat, typ: JType) returns (a: nat, b: nat)
    requires p <= |t| && NumberAt(t, p) == Some((e, typ))
    ensures p < a <= b <= e < |t| && IntegerEnd(t, p) == Some(a) && FractionEnd(t, a) == Some(b) && ExponentEnd(t, b) == Some(e)
    ensures EndOfPrimitive(t[e]) && typ == (if a < e then REAL else INTEGER) && IsInteger(t[p..a])
    ensures typ == INTEGER ==> InInt64(IntegerValue(t[p..a]))
  {
    a := IntegerEnd(t, p).value;
    b := FractionEnd(t, a).value;
    IntegerTokenShape(t, p);
  }

  lemma PartsFound(t: string, p: nat, a: nat, b: nat, c: nat) returns (n: Parts)
    requires p < a <= b <= c < |t| && IntegerEnd(t, p) == Some(a) && FractionEnd(t, a) == Some(b) && ExponentEnd(t, b) == Some(c)
    ensures Proper(n) && t[p..a] == Minus(n.neg) + n.whole && t[a..b] == Point(n.frac) && t[b..c] == n.letter + (n.sign + n.power)
  {
    var neg, whole := WholeFound(t, p, a);
    var frac := FractionFound(t, a, b);
    var letter, sign, power := ExponentFound(t, b, c);
    n := Parts(neg, whole, frac, letter, sign, power);
  }

  /** And nothing else is: an accepted number is properly written. */
  lemma NumberShape(t: string, p: nat, e: nat, typ: JType) returns (n: Parts)
    requires p <= |t| && NumberAt(t, p) == Some((e, typ))
    ensures Proper(n) && p < e < |t| && t[p..e] == NumberText(n) && EndOfPrimitive(t[e])
    ensures typ == (if IsReal(n) then REAL else INTEGER) && (typ == INTEGER ==> InInt64(WholeValue(n)))
  {
    var a, b := NumberPieces(t, p, e, typ);
    n := PartsFound(t, p, a, b, e);
    NumberJoin(t, p, a, b, e, n);
    WholeText(t, p, n, a);
  }

  lemma SliceThree(t: string, p: nat, a: nat, b: nat, c: nat)
    requires p <= a <= b <= c <= |t|
    ensures t[p..c] == t[p..a] + (t[a..b] + t[b..c])
  {
    assert t[a..c] == t[a..b] + t[b..c];
    assert t[p..c] == t[p..a] + t[a..c];
  }

  lemma NumberJoin(t: string, p: nat, a: nat, b: nat, c: nat, n: Parts)
    requires p <= a <= b <= c <= |t| && t[p..a] == Minus(n.neg) + n.whole && t[a..b] == Point(n.frac) && t[b..c] == n.letter + (n.sign + n.power)
    ensures t[p..c] == NumberText(n) && Stands(t, p, Minus(n.neg)) && Stands(t, p + |Minus(n.neg)|, n.whole)
    ensures a == p + |Minus(n.neg)| + |n.whole| && (a < c <==> n.frac != "" || n.letter + (n.sign + n.power) != "")
  {
    SliceThree(t, p, a, b, c);
    Assoc(Minus(n.neg), n.whole, t[a..b] + t[b..c]);
    var m := Minus(n.neg) + n.whole;
    assert |t[p..a]| == a - p;
    assert a == p + |m|;
    Split(t, p, Minus(n.neg), n.whole);
  }

  // ----- values

  /** A member of an object or array: its name with blanks around the colon, its value, and what
      follows it. An array prints only value and gap. */
  datatype Member = Member(key: seq<Letter>, before: string, after: string, val: Value, gap: string)

  /** A JSON value as it is spelled and laid out; front is what follows the opening bracket. */
  datatype Value = Text(ls: seq<Letter>) | Number(n: Parts) | Bool(b: bool) | Null | Composite(obj: bool, front: string, members: seq<Member>)

  /** Any blanks. */
  ghost predicate Blanks(ws: string) { forall k :: 0 <= k < |ws| ==> ws[k] in {' ', '\t', '\n', '\r', '\U{0C}'} }

  /** Any blanks and commas. */
  ghost predicate Gap(s: string) { forall k :: 0 <= k < |s| ==> s[k] in {',', ' ', '\t', '\n', '\r', '\U{0C}'} }

  /** Values that end only where something else begins. */
  predicate Primitive(v: Value) { v.Number? || v.Bool? || v.Null? }

  /** Numbers are properly written, integers fit in 64 bits, and some blank or comma separates a
      primitive from what follows it. */
  ghost predicate Printable(v: Value)
    decreases v, 1
  {
    match v
    case Text(ls) => AllSpellable(ls)
    case Number(n) => Proper(n) && (IsReal(n) || InInt64(WholeValue(n)))
    case Composite(_, front, members) => Gap(front) && AllPrintable(members)
    case _ => true
  }

  ghost predicate AllPrintable(members: seq<Member>)
    decreases members, 0
  {
    members == [] ||
    (&& AllSpellable(members[0].key) && Printable(members[0].val) && Blanks(members[0].before) && Blanks(members[0].after) && Gap(members[0].gap)
     && (Primitive(members[0].val) && |members| > 1 ==> members[0].gap != "")
     && AllPrintable(members[1..]))
  }

  function Quote(ls: seq<Letter>): string { "\"" + Spelled(ls) }

  function Opener(obj: bool): string { if obj then "{" else "[" }

  function Closer(obj: bool): string { if obj then "}" else "]" }

  function Print(v: Value): string
    decreases v, 1
  {
    match v
    case Text(ls) => Quote(ls)
    case Number(n) => NumberText(n)
    case Bool(b) => if b then "true" else "false"
    case Null => "null"
    case Composite(obj, front, members) => Opener(obj) + (front + (PrintMembers(obj, members) + Closer(obj)))
  }

  function PrintKey(obj: bool, key: seq<Letter>, before: string, after: string): string {
    if obj then Quote(key) + (before + (":" + after)) else ""
  }

  function PrintMembers(obj: bool, members: seq<Member>): string
    decreases members, 0
  {
    if members == [] then ""
    else PrintKey(obj, members[0].key, members[0].before, members[0].after)
         + (Print(members[0].val) + (members[0].gap + PrintMembers(obj, members[1..])))
  }

  /** A parsed tree is the value v. */
  ghost predicate Is(tree: Tree, v: Value)
    decreases v, 1
  {
    match v
    case Text(ls) => tree.Scalar? && tree.typ == TEXT && tree.text == Meant(ls)
    case Number(n) => tree.Scalar? && tree.typ == (if IsReal(n) then REAL else INTEGER) && tree.text == NumberText(n)
    case Bool(b) => tree.Scalar? && tree.typ == BOOLEAN && tree.text == (if b then "true" else "false")
    case Null => tree.Scalar? && tree.typ == NULL && tree.text == "null"
    case Composite(obj, _, members) => tree.Container? && tree.typ == (if obj then OBJ else ARRAY) && AllAre(tree.kids, obj, members)
  }

  ghost predicate AllAre(kids: seq<Tree>, obj: bool, members: seq<Member>)
    decreases members, 0
  {
    && |kids| == |members|
    && (members != [] ==>
          && Is(kids[0], members[0].val) && AllAre(kids[1..], obj, members[1..])
          && (if obj then kids[0].name.Named? && kids[0].name.text == Meant(members[0].key) else kids[0].name.NoName?))
  }
}
