/** The tokens of lib/tiny-json.c, as functions of the text before its terminating NUL. */
module JsonText {
  import opened Options
  import Hex

  const NUL: char := '\0'

  /** The character the C code reads at p: the terminator from |t| on. */
  function At(t: string, p: nat): char { if p < |t| then t[p] else NUL }

  predicate Clean(t: string) { forall k :: 0 <= k < |t| ==> t[k] != NUL }

  predicate Blank(c: char) { c == ' ' || c == '\n' || c == '\r' || c == '\t' || c == '\U{0C}' }

  predicate EndOfBlock(c: char) { c == '}' || c == ']' }

  predicate EndOfPrimitive(c: char) { c == ',' || Blank(c) || EndOfBlock(c) }

  predicate Digit(c: char) { '0' <= c <= '9' }

  /** First non-blank, unless the text ends before it. */
  function GoBlank(t: string, p: nat): (r: Option<nat>)
    requires p <= |t|
    ensures r.Some? ==> p <= r.value < |t| && !Blank(t[r.value])
    ensures p < |t| && !Blank(t[p]) ==> r == Some(p)
    decreases |t| - p
  {
    if p == |t| then None else if Blank(t[p]) then GoBlank(t, p + 1) else Some(p)
  }

  /** End of a run of digits. */
  function DigitsEnd(t: string, p: nat): (r: nat)
    requires p <= |t|
    ensures p <= r <= |t| && !Digit(At(t, r)) && forall k :: p <= k < r ==> Digit(t[k])
    decreases |t| - p
  {
    if p < |t| && Digit(t[p]) then DigitsEnd(t, p + 1) else p
  }

  // ----- strings

  function Escape(c: char): Option<char> {
    if c == '\"' || c == '\\' || c == '/' then Some(c)
    else if c == 'b' then Some('\U{08}')
    else if c == 'f' then Some('\U{0C}')
    else if c == 'n' then Some('\n')
    else if c == 'r' then Some('\r')
    else if c == 't' then Some('\t')
    else None
  }

  predicate FourHex(t: string, p: nat) {
    p + 4 <= |t| && forall k :: p <= k < p + 4 ==> Hex.IsHexDigit(t[k])
  }

  /** One character of a string body at p: what it stands for and how long it is. */
  function StringChar(t: string, p: nat): (r: Option<(char, nat)>)
    requires p < |t|
    ensures r.Some? ==> 1 <= r.value.1 && p + r.value.1 <= |t|
    ensures r.Some? && Clean(t) ==> r.value.0 != NUL
  {
    if t[p] != '\\' then Some((t[p], 1))
    else if At(t, p + 1) == 'u' then if FourHex(t, p + 2) then Some(('?', 6)) else None
    else match Escape(At(t, p + 1)) case None => None case Some(c) => Some((c, 2))
  }

  /** The decoded string body that starts at p, and the position after its closing quote. */
  function StringAt(t: string, p: nat): (r: Option<(string, nat)>)
    requires p <= |t|
    ensures r.Some? ==> p + |r.value.0| < r.value.1 <= |t|
    ensures r.Some? && Clean(t) ==> Clean(r.value.0)
    decreases |t| - p
  {
    if p == |t| then None
    else if t[p] == '\"' then Some(("", p + 1))
    else match StringChar(t, p)
      case None => None
      case Some((c, n)) =>
        match StringAt(t, p + n) case None => None case Some((s, e)) => Some(([c] + s, e))
  }

  // ----- literals and numbers

  datatype JType = OBJ | ARRAY | TEXT | BOOLEAN | INTEGER | REAL | NULL

  /** End of a literal, if it is there and properly ended. */
  function LiteralAt(t: string, p: nat, lit: string): (r: Option<nat>)
    ensures r.Some? ==> r.value == p + |lit| < |t| && t[p..r.value] == lit && EndOfPrimitive(t[r.value])
  {
    if p + |lit| < |t| && t[p..p + |lit|] == lit && EndOfPrimitive(t[p + |lit|]) then Some(p + |lit|) else None
  }

  /** Integer part of a number: an optional minus, then 0 or digits without a leading zero. */
  function IntegerEnd(t: string, p: nat): (r: Option<nat>)
    requires p <= |t|
    ensures r.Some? ==> p < r.value <= |t|
  {
    var q := if At(t, p) == '-' then p + 1 else p;
    if !Digit(At(t, q)) then None
    else if t[q] != '0' then Some(DigitsEnd(t, q))
    else if Digit(At(t, q + 1)) then None
    else Some(q + 1)
  }

  /** Digits, at least one, from p. */
  function DigitRun(t: string, p: nat): (r: Option<nat>)
    requires p <= |t|
    ensures r.Some? ==> p < r.value <= |t|
  {
    if Digit(At(t, p)) then Some(DigitsEnd(t, p)) else None
  }

  function FractionEnd(t: string, p: nat): (r: Option<nat>)
    requires p <= |t|
    ensures r.Some? ==> p <= r.value <= |t|
  {
    if At(t, p) == '.' then DigitRun(t, p + 1) else Some(p)
  }

  function ExponentEnd(t: string, p: nat): (r: Option<nat>)
    requires p <= |t|
    ensures r.Some? ==> p <= r.value <= |t|
  {
    if At(t, p) == 'e' || At(t, p) == 'E' then
      DigitRun(t, if At(t, p + 1) == '-' || At(t, p + 1) == '+' then p + 2 else p + 1)
    else Some(p)
  }

  function DigitOf(c: char): (r: nat)
    requires Digit(c)
    ensures r <= 9
  {
    c as int - '0' as int
  }

  function DigitsValue(s: string): (v: nat)
    requires forall k :: 0 <= k < |s| ==> Digit(s[k])
  {
    if s == "" then 0 else 10 * DigitsValue(s[..|s| - 1]) + DigitOf(s[|s| - 1])
  }

  predicate IsInteger(s: string) {
    && s != "" && (s[0] == '-' ==> |s| > 1)
    && forall k :: (if s[0] == '-' then 1 else 0) <= k < |s| ==> Digit(s[k])
  }

  function IntegerValue(s: string): int
    requires IsInteger(s)
  {
    if s[0] == '-' then 0 - DigitsValue(s[1..]) else DigitsValue(s)
  }

  predicate InInt64(v: int) { -0x8000_0000_0000_0000 <= v <= 0x7fff_ffff_ffff_ffff }

  lemma IntegerTokenShape(t: string, p: nat)
    requires p <= |t| && IntegerEnd(t, p).Some?
    ensures IsInteger(t[p..IntegerEnd(t, p).value])
  {
    var e := IntegerEnd(t, p).value;
    var q, s := if At(t, p) == '-' then p + 1 else p, t[p..e];
    assert s[0] == t[p] && q < e;
    forall k | q - p <= k < |s| ensures Digit(s[k]) { assert s[k] == t[p + k]; }
  }

  /** A number token: where it ends and its type; integers must fit in 64 bits. */
  function NumberAt(t: string, p: nat): (r: Option<(nat, JType)>)
    requires p <= |t|
    ensures r.Some? ==> p < r.value.0 < |t| && EndOfPrimitive(t[r.value.0])
    ensures r.Some? ==> r.value.1 == INTEGER || r.value.1 == REAL
  {
    match IntegerEnd(t, p)
    case None => None
    case Some(a) =>
      match FractionEnd(t, a)
      case None => None
      case Some(b) =>
        match ExponentEnd(t, b)
        case None => None
        case Some(c) =>
          IntegerTokenShape(t, p);
          if !EndOfPrimitive(At(t, c)) then None
          else if c > a then Some((c, REAL))
          else if InInt64(IntegerValue(t[p..a])) then Some((a, INTEGER))
          else None
  }

  /** Where reading goes on after a primitive: its end character is consumed unless it closes a block. */
  function After(t: string, e: nat): (r: nat)
    requires e < |t|
    ensures e <= r <= |t| && (r == e <==> EndOfBlock(t[e]))
  {
    if EndOfBlock(t[e]) then e else e + 1
  }

  datatype Token = Token(typ: JType, pos: nat, text: string, next: nat)

  function LiteralToken(t: string, p: nat, lit: string, typ: JType): Option<Token> {
    match LiteralAt(t, p, lit) case None => None case Some(e) => Some(Token(typ, p, lit, After(t, e)))
  }

  /** The scalar value at p. */
  function ScalarAt(t: string, p: nat): (r: Option<Token>)
    requires p < |t|
    ensures r.Some? ==> p < r.value.next <= |t| && p <= r.value.pos && !EndOfBlock(t[p])
    ensures r.Some? ==> r.value.typ != OBJ && r.value.typ != ARRAY
    ensures r.Some? && Clean(t) ==> Clean(r.value.text)
  {
    if t[p] == '\"' then
      match StringAt(t, p + 1) case None => None case Some((s, e)) => Some(Token(TEXT, p + 1, s, e))
    else if t[p] == 't' then LiteralToken(t, p, "true", BOOLEAN)
    else if t[p] == 'f' then LiteralToken(t, p, "false", BOOLEAN)
    else if t[p] == 'n' then LiteralToken(t, p, "null", NULL)
    else match NumberAt(t, p) case None => None case Some((e, typ)) => Some(Token(typ, p, t[p..e], After(t, e)))
  }
}
