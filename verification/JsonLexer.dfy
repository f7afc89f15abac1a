/** The token readers of lib/tiny-json.c, which rewrite the buffer as they go: they read the
    original text ahead of the cursor and leave decoded, terminated tokens behind it. */
module JsonLexer {
  import opened Options
  import Hex
  import opened JsonText
  import opened JsonNumbers
  import opened JsonGrammar
  import opened JsonLayout

  function Ptr(r: Option<nat>): int { match r case None => -1 case Some(p) => p }

  /** From p on, buf still holds the text t and its terminator. */
  ghost predicate Unread(buf: seq<char>, t: string, p: nat) {
    && Clean(t) && p <= |t| < |buf| && buf[|t|] == NUL
    && forall k :: p <= k < |t| ==> buf[k] == t[k]
  }

  ghost predicate SameOutside(was: seq<char>, now: seq<char>, lo: nat, hi: nat) {
    |now| == |was| && forall k :: 0 <= k < |was| && (k < lo || k >= hi) ==> now[k] == was[k]
  }

  /** The token `text` was left at pos; reading goes on at next. Its terminator is written
      unless it is the character at next. */
  ghost predicate Stored(was: seq<char>, now: seq<char>, pos: nat, text: string, next: nat) {
    && pos + |text| <= next <= |was| && SameOutside(was, now, pos, next)
    && now[pos..pos + |text|] == text
    && (pos + |text| < next ==> now[pos + |text|] == NUL)
  }

  lemma UnreadAt(buf: seq<char>, t: string, p: nat, k: nat)
    requires Unread(buf, t, p) && p <= k <= |t|
    ensures buf[k] == At(t, k)
  {
  }

  lemma UnreadLater(was: seq<char>, now: seq<char>, t: string, p: nat, lo: nat, q: nat)
    requires Unread(was, t, p) && p <= q <= |t| && SameOutside(was, now, lo, q)
    ensures Unread(now, t, q)
  {
  }

  lemma StoredLater(was: seq<char>, now: seq<char>, pos: nat, text: string, e: nat, next: nat)
    requires Stored(was, now, pos, text, e) && pos + |text| < e <= next <= |was|
    ensures Stored(was, now, pos, text, next)
  {
  }

  /** goBlank */
  method SkipBlank(buf: array<char>, p: nat, ghost t: string) returns (r: int)
    requires Unread(buf[..], t, p)
    ensures r == Ptr(GoBlank(t, p))
  {
    var q := p;
    while buf[q] != NUL
      invariant p <= q <= |t| && GoBlank(t, p) == GoBlank(t, q)
      decreases |t| - q
    {
      if !Blank(buf[q]) { return q; }
      q := q + 1;
    }
    return -1;
  }

  /** goNum */
  method SkipDigits(buf: array<char>, p: nat, ghost t: string) returns (r: int)
    requires Unread(buf[..], t, p)
    ensures r == if DigitsEnd(t, p) == |t| then -1 else DigitsEnd(t, p)
  {
    var q := p;
    while buf[q] != NUL
      invariant p <= q <= |t| && DigitsEnd(t, p) == DigitsEnd(t, q)
      decreases |t| - q
    {
      if !Digit(buf[q]) { return q; }
      q := q + 1;
    }
    return -1;
  }

  /** getCharFromUnicode: stops at the first character that is not a hex digit. */
  method FourHexAt(buf: array<char>, p: nat, ghost t: string) returns (ok: bool)
    requires Unread(buf[..], t, p)
    ensures ok == FourHex(t, p)
  {
    for i := 0 to 4
      invariant p + i <= |t| && forall k :: p <= k < p + i ==> Hex.IsHexDigit(t[k])
    {
      if !Hex.IsHexDigit(buf[p + i]) { return false; }
    }
    return true;
  }

  function Prepend(s: string, r: Option<(string, nat)>): Option<(string, nat)> {
    match r case None => None case Some((u, e)) => Some((s + u, e))
  }

  lemma PrependNothing(r: Option<(string, nat)>)
    ensures Prepend("", r) == r
  {
    match r case None => case Some((u, _)) => assert "" + u == u;
  }

  lemma PrependChar(s: string, t: string, p: nat)
    requires p < |t| && t[p] != '\"'
    ensures StringChar(t, p).None? ==> Prepend(s, StringAt(t, p)).None?
    ensures StringChar(t, p).Some? ==>
              Prepend(s, StringAt(t, p)) == Prepend(s + [StringChar(t, p).value.0], StringAt(t, p + StringChar(t, p).value.1))
  {
    if StringChar(t, p).Some? {
      var (c, n) := StringChar(t, p).value;
      match StringAt(t, p + n) {
        case None =>
        case Some((u, _)) => assert s + ([c] + u) == (s + [c]) + u;
      }
    }
  }

  /** One character of a string body: what it decodes to and where the next one starts. */
  method DecodeChar(buf: array<char>, head: nat, ghost t: string) returns (c: char, next: int)
    requires Unread(buf[..], t, head) && head < |t|
    ensures StringChar(t, head).None? ==> next == -1
    ensures StringChar(t, head).Some? ==> c == StringChar(t, head).value.0 && next == head + StringChar(t, head).value.1
  {
    if buf[head] == '\\' {
      if buf[head + 1] == 'u' {
        var ok := FourHexAt(buf, head + 2, t);
        if !ok { return NUL, -1; }
        return '?', head + 6;
      } else {
        match Escape(buf[head + 1]) {
          case None => return NUL, -1;
          case Some(e) => return e, head + 2;
        }
      }
    }
    return buf[head], head + 1;
  }

  /** parseString: the write position never passes the read position. */
  method ParseString(buf: array<char>, str: nat, ghost t: string) returns (r: int)
    requires Unread(buf[..], t, str)
    modifies buf
    ensures StringAt(t, str).None? ==> r == -1
    ensures StringAt(t, str).Some? ==>
              var (s, e) := StringAt(t, str).value;
              r == e && str + |s| < e && Stored(old(buf[..]), buf[..], str, s, e)
  {
    var head, tail := str, str;
    ghost var s := "";
    ghost var was := buf[..];
    PrependNothing(StringAt(t, str));
    while buf[head] != NUL
      invariant str <= tail <= head <= |t| && tail == str + |s| && buf[str..tail] == s
      invariant SameOutside(was, buf[..], str, head) && Unread(buf[..], t, head)
      invariant StringAt(t, str) == Prepend(s, StringAt(t, head))
      decreases |t| - head
    {
      UnreadAt(buf[..], t, head, head);
      if buf[head] == '\"' {
        buf[tail] := NUL;
        assert StringAt(t, head) == Some(("", head + 1)) && s + "" == s;
        return head + 1;
      }
      PrependChar(s, t, head);
      var c, next := DecodeChar(buf, head, t);
      if next == -1 { return -1; }
      buf[tail] := c;
      s := s + [c];
      tail := tail + 1;
      UnreadLater(was, buf[..], t, str, str, next);
      head := next;
    }
    UnreadAt(buf[..], t, head, head);
    return -1;
  }

  /** setToNull */
  method SetToNull(buf: array<char>, e: nat, ghost t: string, ghost pos: nat) returns (r: nat)
    requires Unread(buf[..], t, pos) && pos <= e < |t|
    modifies buf
    ensures r == After(t, e) && Stored(old(buf[..]), buf[..], pos, t[pos..e], r)
  {
    r := e;
    if !EndOfBlock(buf[e]) {
      buf[e] := NUL;
      r := e + 1;
    }
  }

  /** checkStr: stops at the first difference, so it never passes the terminator. */
  method CheckStr(buf: array<char>, p: nat, lit: string, ghost t: string) returns (r: int)
    requires Unread(buf[..], t, p) && Clean(lit)
    ensures r == if p + |lit| <= |t| && t[p..p + |lit|] == lit then p + |lit| else -1
  {
    for i := 0 to |lit|
      invariant p + i <= |t| && t[p..p + i] == lit[..i]
    {
      UnreadAt(buf[..], t, p, p + i);
      if buf[p + i] != lit[i] {
        assert p + |lit| <= |t| ==> t[p..p + |lit|][i] == t[p + i];
        return -1;
      }
    }
    return p + |lit|;
  }

  /** trueValue, falseValue, nullValue */
  method PrimitiveValue(buf: array<char>, p: nat, lit: string, ghost t: string) returns (r: int)
    requires Unread(buf[..], t, p) && Clean(lit)
    modifies buf
    ensures LiteralAt(t, p, lit).None? ==> r == -1
    ensures LiteralAt(t, p, lit).Some? ==>
              r == After(t, p + |lit|) && Stored(old(buf[..]), buf[..], p, lit, r)
  {
    var e := CheckStr(buf, p, lit, t);
    if e == -1 { return -1; }
    UnreadAt(buf[..], t, p, e);
    if !EndOfPrimitive(buf[e]) { return -1; }
    r := SetToNull(buf, e, t, p);
  }

  /** fraqValue from its first digit, and the digits of expValue. */
  method DigitRunAt(buf: array<char>, p: nat, ghost t: string) returns (r: int)
    requires Unread(buf[..], t, p)
    ensures r == -1 ==> DigitRun(t, p).None? || DigitRun(t, p).value == |t|
    ensures r != -1 ==> DigitRun(t, p) == Some(r) && 0 <= r < |t|
  {
    UnreadAt(buf[..], t, p, p);
    if !Digit(buf[p]) { return -1; }
    r := SkipDigits(buf, p + 1, t);
  }

  /** The phase of a number that ends as `end` says was read up to r; -1 only if it is malformed
      or runs into the end of the text, where no number can end. */
  ghost predicate Phase(t: string, end: Option<nat>, r: int) {
    if r == -1 then end.None? || end.value == |t| else end == Some(r) && 0 <= r <= |t|
  }

  /** The first digits, after an optional minus. */
  method IntegerPart(buf: array<char>, p: nat, ghost t: string) returns (r: int)
    requires Unread(buf[..], t, p) && p < |t|
    ensures Phase(t, IntegerEnd(t, p), r)
  {
    var q := if buf[p] == '-' then p + 1 else p;
    UnreadAt(buf[..], t, p, q);
    if !Digit(buf[q]) { return -1; }
    if buf[q] != '0' {
      r := SkipDigits(buf, q, t);
    } else {
      UnreadAt(buf[..], t, p, q + 1);
      if Digit(buf[q + 1]) { return -1; }
      r := q + 1;
    }
  }

  method FractionPart(buf: array<char>, p: nat, ghost t: string) returns (r: int)
    requires Unread(buf[..], t, p)
    ensures Phase(t, FractionEnd(t, p), r)
  {
    r := p;
    if buf[p] == '.' { r := DigitRunAt(buf, p + 1, t); }
  }

  method ExponentPart(buf: array<char>, p: nat, ghost t: string) returns (r: int)
    requires Unread(buf[..], t, p)
    ensures Phase(t, ExponentEnd(t, p), r)
  {
    r := p;
    if buf[p] == 'e' || buf[p] == 'E' {
      UnreadAt(buf[..], t, p, p + 1);
      r := DigitRunAt(buf, if buf[p + 1] == '-' || buf[p + 1] == '+' then p + 2 else p + 1, t);
    }
  }

  lemma NumberCut(t: string, p: nat)
    requires p <= |t|
    ensures IntegerEnd(t, p).None? || IntegerEnd(t, p).value == |t| ==> NumberAt(t, p).None?
    ensures IntegerEnd(t, p).Some? ==>
              var f := FractionEnd(t, IntegerEnd(t, p).value);
              (f.None? || f.value == |t| ==> NumberAt(t, p).None?) &&
              (f.Some? ==> var x := ExponentEnd(t, f.value); x.None? || x.value == |t| ==> NumberAt(t, p).None?)
  {
  }

  /** The shape of a number: integer part, fraction, exponent, end character. */
  method NumberShape(buf: array<char>, p: nat, ghost t: string) returns (e: int, typ: JType)
    requires Unread(buf[..], t, p) && p < |t|
    ensures e == -1 ==> NumberAt(t, p).None?
    ensures e != -1 ==> p < e < |t| && EndOfPrimitive(t[e])
    ensures e != -1 && typ != INTEGER ==> NumberAt(t, p) == Some((e, typ))
    ensures e != -1 && typ == INTEGER ==>
              IntegerEnd(t, p) == Some(e) && IsInteger(t[p..e]) &&
              NumberAt(t, p) == if InInt64(IntegerValue(t[p..e])) then Some((e, INTEGER)) else None
  {
    typ := INTEGER;
    NumberCut(t, p);
    var a := IntegerPart(buf, p, t);
    if a == -1 { return -1, typ; }
    var b := FractionPart(buf, a, t);
    if b == -1 { return -1, typ; }
    e := ExponentPart(buf, b, t);
    if e == -1 { return -1, typ; }
    if e > a { typ := REAL; }
    UnreadAt(buf[..], t, p, e);
    if !EndOfPrimitive(buf[e]) { return -1, typ; }
    IntegerTokenShape(t, p);
  }

  /** numValue. The bound check terminates the token for strcmp and restores the character. */
  method NumValue(buf: array<char>, p: nat, ghost t: string) returns (r: int, typ: JType)
    requires Unread(buf[..], t, p) && p < |t|
    modifies buf
    ensures NumberAt(t, p).None? ==> r == -1
    ensures NumberAt(t, p).Some? ==>
              var (e, ty) := NumberAt(t, p).value;
              r == After(t, e) && typ == ty && Stored(old(buf[..]), buf[..], p, t[p..e], r)
  {
    ghost var was := buf[..];
    var e;
    e, typ := NumberShape(buf, p, t);
    if e == -1 { return -1, typ; }
    if typ == INTEGER {
      TokenIsCanonical(t, p);
      BoundCheckIsInt64(t[p..e]);
      assert buf[p..e] == t[p..e] && buf[p] == t[p];
      var negative := buf[p] == '-';
      var maxdigits := if negative then |MIN_TEXT| else |MAX_TEXT|;
      if e - p > maxdigits { return -1, typ; }
      if e - p == maxdigits {
        var tmp := buf[e];
        buf[e] := NUL;
        assert buf[p..e] == t[p..e];
        if StrLess(if negative then MIN_TEXT else MAX_TEXT, buf[p..e]) { return -1, typ; }
        buf[e] := tmp;
        assert buf[..] == was;
      }
    }
    r := SetToNull(buf, e, t, p);
  }

  /** The switch over scalar values (lines 374-378): where reading goes on, type and position. */
  method ScalarValue(buf: array<char>, p: nat, ghost t: string) returns (next: int, typ: JType, pos: nat)
    requires Unread(buf[..], t, p) && p < |t|
    modifies buf
    ensures ScalarAt(t, p).None? ==> next == -1
    ensures ScalarAt(t, p).Some? ==>
              var k := ScalarAt(t, p).value;
              next == k.next && typ == k.typ && pos == k.pos && Stored(old(buf[..]), buf[..], k.pos, k.text, k.next)
  {
    pos := p;
    if buf[p] == '\"' {
      pos := p + 1;
      typ := TEXT;
      next := ParseString(buf, p + 1, t);
    } else if buf[p] == 't' {
      typ := BOOLEAN;
      next := PrimitiveValue(buf, p, "true", t);
    } else if buf[p] == 'f' {
      typ := BOOLEAN;
      next := PrimitiveValue(buf, p, "false", t);
    } else if buf[p] == 'n' {
      typ := NULL;
      next := PrimitiveValue(buf, p, "null", t);
    } else {
      next, typ := NumValue(buf, p, t);
    }
  }

  method SkipColon(buf: array<char>, e: nat, ghost t: string) returns (v: int)
    requires Unread(buf[..], t, e)
    ensures v == Ptr(ValueStart(t, e))
  {
    var c := SkipBlank(buf, e, t);
    if c == -1 || buf[c] != ':' { return -1; }
    v := SkipBlank(buf, c + 1, t);
  }

  /** The name half of an item (lines 351-356): propertyName, or no name in an array. */
  method PropertyName(buf: array<char>, p: nat, typ: JType, ghost t: string) returns (v: int, name: int)
    requires Unread(buf[..], t, p) && p < |t|
    modifies buf
    ensures HeadAt(t, p, typ).None? ==> v == -1
    ensures HeadAt(t, p, typ).Some? ==>
              var (nm, w) := HeadAt(t, p, typ).value;
              v == w && name == NamePos(nm) &&
              (match nm
               case NoName => buf[..] == old(buf[..])
               case Named(pos, text) => pos + |text| < w && Stored(old(buf[..]), buf[..], pos, text, w))
  {
    if typ == ARRAY { return p, -1; }
    if buf[p] != '\"' { return -1, -1; }
    name := p + 1;
    ghost var was := buf[..];
    var e := ParseString(buf, p + 1, t);
    if e == -1 { return -1, name; }
    UnreadLater(was, buf[..], t, p, p + 1, e);
    v := SkipColon(buf, e, t);
    if v != -1 { StoredLater(was, buf[..], p + 1, StringAt(t, p + 1).value.0, e, v); }
  }
}
