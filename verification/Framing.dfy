/** The responses of lib/httpRemote.h and the loop of remote-signer/bridge.go that reads them
    back one character at a time until it believes the response is complete. */
module Framing {
  import opened Options
  import opened JsonText
  import opened JsonNumbers

  const BREAK := "\r\n\r\n"
  const LENGTH := "Content-Length:"

  // ----- strings.Index and strconv.Atoi

  predicate OccursAt(s: string, pat: string, i: nat) { i + |pat| <= |s| && s[i..i + |pat|] == pat }

  /** First occurrence of pat in s at i or later. */
  function IndexFrom(s: string, pat: string, i: nat): (r: Option<nat>)
    ensures r.None? ==> forall k :: k >= i ==> !OccursAt(s, pat, k)
    ensures r.Some? ==> i <= r.value && OccursAt(s, pat, r.value) && forall k :: i <= k < r.value ==> !OccursAt(s, pat, k)
    decreases if i <= |s| then |s| - i + 1 else 0
  {
    if i + |pat| > |s| then None
    else if s[i..i + |pat|] == pat then Some(i)
    else IndexFrom(s, pat, i + 1)
  }

  lemma IndexUnique(s: string, pat: string, n: nat)
    requires OccursAt(s, pat, n) && forall k :: 0 <= k < n ==> !OccursAt(s, pat, k)
    ensures IndexFrom(s, pat, 0) == Some(n)
  {
    var r := IndexFrom(s, pat, 0);
    assert r.None? ==> !OccursAt(s, pat, n);
    assert r.Some? && n < r.value ==> !OccursAt(s, pat, n);
    assert r.Some? ==> OccursAt(s, pat, r.value);
  }

  lemma PrefixOccurs(s: string, b: string, pat: string, i: nat)
    requires b <= s
    ensures OccursAt(b, pat, i) ==> OccursAt(s, pat, i)
  {
    assert i + |pat| <= |b| ==> s[i..i + |pat|] == b[i..i + |pat|];
  }

  lemma NotFound(s: string, pat: string)
    requires forall i: nat :: i + |pat| <= |s| ==> !OccursAt(s, pat, i)
    ensures IndexFrom(s, pat, 0).None?
  {
    var r := IndexFrom(s, pat, 0);
    assert r.Some? ==> OccursAt(s, pat, r.value);
  }

  lemma OccursChar(s: string, pat: string, i: nat, k: nat)
    requires k < |pat|
    ensures OccursAt(s, pat, i) ==> s[i + k] == pat[k]
  {
    assert OccursAt(s, pat, i) ==> s[i..i + |pat|][k] == s[i + k];
  }

  /** strconv.Atoi: zero when the text is not a decimal number. */
  function Atoi(s: string): int {
    if s != "" && Digits(s) then DigitsValue(s)
    else if |s| > 1 && (s[0] == '-' || s[0] == '+') && Digits(s[1..]) then
      if s[0] == '-' then 0 - DigitsValue(s[1..]) else DigitsValue(s[1..])
    else 0
  }

  /** printf's %d of a natural number. */
  function Decimal(n: nat): (r: string)
    ensures r != "" && Digits(r) && (n > 0 ==> r[0] != '0')
  {
    if n < 10 then [(n + '0' as int) as char] else Decimal(n / 10) + [(n % 10 + '0' as int) as char]
  }

  lemma {:induction false} AtoiOfDecimal(n: nat)
    ensures DigitsValue(Decimal(n)) == n && Atoi(Decimal(n)) == n
  {
    if n >= 10 {
      AtoiOfDecimal(n / 10);
      assert Decimal(n)[..|Decimal(n)| - 1] == Decimal(n / 10);
    } else {
      assert Decimal(n)[..0] == "";
    }
  }

  // ----- the reading loop

  /** Lines 126-155 of the bridge: b is what was read when the loop stopped; ok is false when
      the slice of line 140 would be out of order and the goroutine would panic. For any
      framed response at the front of the stream, exactly that response is read. */
  method ReadResponse(stream: string, ghost head: string, ghost body: string) returns (b: string, ok: bool)
    ensures b <= stream
    ensures HeadOk(head) && Framed(head, body) <= stream ==> ok && b == Framed(head, body)
  {
    b, ok := "", true;
    var l, cl, index2 := 0, 0, 0;
    var readingBody := false;
    ghost var framed := HeadOk(head) && Framed(head, body) <= stream;
    ghost var h, n := |Header(head, |body|)|, |body|;
    while l < |stream|
      invariant l <= |stream| && b == stream[..l]
      invariant framed ==> Progress(h, n, l, readingBody, cl, index2)
    {
      b := b + [stream[l]];
      l := l + 1;
      assert b == stream[..l];
      if framed { HeaderFound(head, body, stream, l); }
      if !readingBody {
        var at := IndexFrom(b, BREAK, 0);
        if at.Some? {
          var cat := IndexFrom(b, LENGTH, 0);
          if cat.None? { break; }
          index2 := at.value;
          if cat.value + 16 > index2 { return b, false; }
          cl := Atoi(b[cat.value + 16..index2]);
          if cl == 0 { break; }
          readingBody := true;
          if l - cl == index2 + 4 { break; }
        }
      } else if l - cl == index2 + 4 {
        break;
      }
    }
    if framed { assert stream[..|Framed(head, body)|] == Framed(head, body); }
  }

  // ----- well-framed responses

  function Header(head: string, n: nat): string { head + "Content-Length: " + Decimal(n) + BREAK }

  /** A response: header lines, the length of the body, an empty line, the body. */
  function Framed(head: string, body: string): string { Header(head, |body|) + body }

  /** Header lines that neither mention a length nor end the header. */
  ghost predicate HeadOk(head: string) {
    && (forall k :: 0 <= k < |head| ==> head[k] != 'L')
    && (forall k :: 0 <= k && k + 2 < |head| && head[k] == '\r' ==> head[k + 2] != '\r')
  }

  /** The state of the loop after l characters of a response with a header of h characters and
      a body of n. */
  ghost predicate Progress(h: nat, n: nat, l: nat, readingBody: bool, cl: int, index2: int) {
    && (!readingBody ==> l < h)
    && (readingBody ==> h <= l < h + n && cl == n && index2 == h - 4)
  }

  /** What the two searches find in the first characters b of it, its length line starting at k. */
  ghost predicate HeaderSeen(h: nat, n: nat, k: nat, b: string) {
    && (|b| < h ==> IndexFrom(b, BREAK, 0).None?)
    && (|b| == h ==> IndexFrom(b, BREAK, 0) == Some(h - 4) && IndexFrom(b, LENGTH, 0) == Some(k)
                     && k + 16 <= h - 4 && Atoi(b[k + 16..h - 4]) == n)
  }

  lemma HeaderFound(head: string, body: string, stream: string, l: nat)
    requires HeadOk(head) && Framed(head, body) <= stream && l <= |stream|
    ensures HeaderSeen(|Header(head, |body|)|, |body|, |head|, stream[..l])
  {
    var b, hdr := stream[..l], Header(head, |body|);
    if l <= |hdr| {
      assert b == Framed(head, body)[..l] == hdr[..l];
      if l < |hdr| {
        NoBreakBefore(head, |body|, b);
      } else {
        assert hdr[..l] == hdr;
        FindsBoth(head, |body|);
      }
    }
  }

  lemma NoBreakAt(head: string, n: nat, i: nat)
    requires HeadOk(head) && i < |Header(head, n)| - 4
    ensures !OccursAt(Header(head, n), BREAK, i)
  {
    var hdr, len := Header(head, n), "Content-Length: ";
    OccursChar(hdr, BREAK, i, 0);
    OccursChar(hdr, BREAK, i, 2);
    if i < |head| {
      assert hdr[i] == head[i];
      assert hdr[i + 2] == if i + 2 < |head| then head[i + 2] else len[i + 2 - |head|];
    } else if i < |head| + 16 {
      assert hdr[i] == len[i - |head|];
    } else {
      assert hdr[i] == Decimal(n)[i - |head| - 16];
    }
  }

  lemma NoBreakBefore(head: string, n: nat, b: string)
    requires HeadOk(head) && |b| < |Header(head, n)| && b == Header(head, n)[..|b|]
    ensures IndexFrom(b, BREAK, 0).None?
  {
    var hdr := Header(head, n);
    forall i: nat | i + |BREAK| <= |b| ensures !OccursAt(b, BREAK, i) {
      PrefixOccurs(hdr, b, BREAK, i);
      NoBreakAt(head, n, i);
    }
    NotFound(b, BREAK);
  }

  lemma FindsBoth(head: string, n: nat)
    requires HeadOk(head)
    ensures var hdr := Header(head, n); var h := |hdr|;
            IndexFrom(hdr, BREAK, 0) == Some(h - 4) && IndexFrom(hdr, LENGTH, 0) == Some(|head|)
            && |head| + 16 <= h - 4 && Atoi(hdr[|head| + 16..h - 4]) == n
  {
    var hdr := Header(head, n);
    var h := |hdr|;
    forall k | 0 <= k < h - 4 ensures !OccursAt(hdr, BREAK, k) { NoBreakAt(head, n, k); }
    assert hdr[h - 4..h] == BREAK;
    IndexUnique(hdr, BREAK, h - 4);
    forall k | 0 <= k < |head| ensures !OccursAt(hdr, LENGTH, k) { NoLengthAt(head, n, k); }
    assert hdr[|head|..|head| + 15] == LENGTH;
    IndexUnique(hdr, LENGTH, |head|);
    assert hdr[|head| + 16..h - 4] == Decimal(n);
    AtoiOfDecimal(n);
  }

  lemma NoLengthAt(head: string, n: nat, i: nat)
    requires HeadOk(head) && i < |head|
    ensures !OccursAt(Header(head, n), LENGTH, i)
  {
    var hdr, len := Header(head, n), "Content-Length: ";
    OccursChar(hdr, LENGTH, i, 8);
    assert hdr[i + 8] == if i + 8 < |head| then head[i + 8] else len[i + 8 - |head|];
  }

  // ----- the board's responses

  /** A header line without carriage return and without the letter that marks the length. */
  ghost predicate Plain(line: string) { forall k :: 0 <= k < |line| ==> line[k] != '\r' && line[k] != 'L' }

  /** The two lines in front of the length. */
  function Head(status: string, contentType: string): string { status + "\r\n" + ("Content-Type: " + contentType + "\r\n") }

  lemma HeadIsOk(status: string, contentType: string)
    requires Plain(status) && Plain(contentType)
    ensures HeadOk(Head(status, contentType))
  {
    var head, n := Head(status, contentType), |status|;
    assert Plain("Content-Type: ");
    forall k | 0 <= k < |head|
      ensures head[k] != 'L' && (head[k] == '\r' ==> k == n || k == |head| - 2)
    {
      if k < n { assert head[k] == status[k]; }
      else if n + 2 <= k < n + 16 { assert head[k] == "Content-Type: "[k - n - 2]; }
      else if n + 16 <= k < |head| - 2 { assert head[k] == contentType[k - n - 16]; }
    }
    assert head[n + 2] == 'C';
  }

  const OK_STATUS := "HTTP/1.1 200 OK"
  const JSON_TYPE := "application/json"
  const TEXT_TYPE := "text/plain"
  const JSON_HEAD := Head(OK_STATUS, JSON_TYPE)
  const TEXT_HEAD := Head(OK_STATUS, TEXT_TYPE)

  /** Both kinds of header, spelled out. */
  lemma HeadTexts()
    ensures JSON_HEAD == "HTTP/1.1 200 OK" + "\r\n" + ("Content-Type: " + "application/json" + "\r\n")
    ensures TEXT_HEAD == "HTTP/1.1 200 OK" + "\r\n" + ("Content-Type: " + "text/plain" + "\r\n")
  {
  }

  /** The body getKeysResponseStr prints. */
  function KeysBody(keys: seq<string>): string { "[" + Quoted(keys, |keys|) + "]" }

  /** The first n keys, quoted, and a comma behind each but the last of all. */
  function Quoted(keys: seq<string>, n: nat): string
    requires n <= |keys|
  {
    if n == 0 then "" else Quoted(keys, n - 1) + "\"0x" + keys[n - 1] + "\"" + (if n < |keys| then "," else "")
  }

  lemma {:induction false} QuotedLength(keys: seq<string>, n: nat)
    requires n <= |keys| && forall k :: 0 <= k < |keys| ==> |keys[k]| == 96
    ensures |Quoted(keys, n)| == 100 * n + (if n < |keys| then n else if n == 0 then 0 else n - 1)
  {
    if n > 0 { QuotedLength(keys, n - 1); }
  }

  /** The loop of getKeysResponseStr over the keys. */
  method AppendKeys(start: string, keys: seq<string>) returns (buffer: string)
    ensures buffer == start + Quoted(keys, |keys|)
  {
    buffer := start;
    for i := 0 to |keys|
      invariant buffer == start + Quoted(keys, i)
    {
      buffer := buffer + "\"0x";
      buffer := buffer + keys[i];
      buffer := buffer + "\"";
      if i + 1 < |keys| { buffer := buffer + ","; }
    }
  }

  lemma Assemble(head: string, body: string, inner: string)
    requires body == "[" + inner + "]"
    ensures head + "Content-Length: " + Decimal(|body|) + "\r\n\r\n[" + inner + "]" == Framed(head, body)
  {
    assert "\r\n\r\n[" == BREAK + "[";
    Regroup(head, "Content-Length: ", Decimal(|body|), BREAK, "[", inner, "]");
  }

  lemma Regroup(a: string, b: string, c: string, d: string, x: string, y: string, z: string)
    ensures a + b + c + (d + x) + y + z == a + b + c + d + (x + y + z)
  {
    var p := a + b + c;
    assert p + (d + x) == p + d + x;
    assert (p + d + x) + y + z == p + d + (x + y + z);
  }

  /** getKeysResponseStr: the announced length is the length of the list it then prints. */
  method KeysResponse(keys: seq<string>) returns (buffer: string)
    requires forall k :: 0 <= k < |keys| ==> |keys[k]| == 96
    ensures buffer == Framed(JSON_HEAD, KeysBody(keys))
  {
    var size := |keys| - 1 + |keys| * (96 + 4) + 2;
    if |keys| == 0 { size := 2; }
    QuotedLength(keys, |keys|);
    var head := JSON_HEAD;
    assert size == |KeysBody(keys)|;
    buffer := head + "Content-Length: ";
    buffer := buffer + Decimal(size);
    buffer := buffer + "\r\n\r\n[";
    buffer := AppendKeys(buffer, keys);
    buffer := buffer + "]";
    Assemble(head, KeysBody(keys), Quoted(keys, |keys|));
  }

  /** The printing half of signResponseStr. */
  method SignResponse(json: bool, signature: string) returns (buffer: string)
    ensures json ==> buffer == Framed(JSON_HEAD, "{\"signature\": \"0x" + signature + "\"}")
    ensures !json ==> buffer == Framed(TEXT_HEAD, "0x" + signature)
  {
    var reply;
    if json {
      reply := "{\"signature\": \"0x" + signature + "\"}";
      buffer := JSON_HEAD + "Content-Length: ";
    } else {
      reply := "0x" + signature;
      buffer := TEXT_HEAD + "Content-Length: ";
    }
    buffer := buffer + Decimal(|reply|);
    buffer := buffer + "\r\n\r\n";
    buffer := buffer + reply;
  }

  lemma HeadsOk()
    ensures HeadOk(JSON_HEAD) && HeadOk(TEXT_HEAD)
  {
    HeadIsOk(OK_STATUS, JSON_TYPE);
    HeadIsOk(OK_STATUS, TEXT_TYPE);
  }

  /** Whatever follows on the line, the bridge reads a key list response to its last character
      and no further. */
  method KeysRoundTrip(keys: seq<string>, rest: string) returns (sent: string, read: string)
    requires forall k :: 0 <= k < |keys| ==> |keys[k]| == 96
    ensures read == sent == Framed(JSON_HEAD, KeysBody(keys))
  {
    HeadsOk();
    sent := KeysResponse(keys);
    var ok;
    read, ok := ReadResponse(sent + rest, JSON_HEAD, KeysBody(keys));
  }

  method SignRoundTrip(json: bool, signature: string, rest: string) returns (sent: string, read: string)
    ensures read == sent
  {
    HeadsOk();
    sent := SignResponse(json, signature);
    var ok;
    if json {
      read, ok := ReadResponse(sent + rest, JSON_HEAD, "{\"signature\": \"0x" + signature + "\"}");
    } else {
      read, ok := ReadResponse(sent + rest, TEXT_HEAD, "0x" + signature);
    }
  }

  // ----- fixed responses

  const KEYSTORE_BODY := "{\"data\": [{\"status\": \"imported\",\"message\": \"\"}]}"

  /** upcheckResponse, badRequest, pknf (without body) and keystoreRespJson. */
  datatype Fixed = Upcheck | BadRequest | KeyNotFound | Imported

  function Reason(f: Fixed): string {
    match f
    case Upcheck => "200 OK"
    case BadRequest => "400 Bad request format"
    case KeyNotFound => "404 Public key not found"
    case Imported => "200 Success response"
  }

  function StatusLine(f: Fixed): string { "HTTP/1.1 " + Reason(f) }

  function FixedHead(f: Fixed): string {
    Head(StatusLine(f), if f == Upcheck then "text/plain; charset=utf-8" else "application/json")
  }

  /** The text as written in the source, its length spelled out. */
  function FixedResponse(f: Fixed): string {
    if f == Imported then FixedHead(f) + "Content-Length: " + "48" + BREAK + KEYSTORE_BODY
    else FixedHead(f) + "Content-Length: " + "0" + BREAK
  }

  /** The texts of the source without a body. */
  lemma FixedTexts()
    ensures FixedResponse(Upcheck)
         == "HTTP/1.1 " + "200 OK" + "\r\n" + ("Content-Type: " + "text/plain; charset=utf-8" + "\r\n") + "Content-Length: " + "0" + "\r\n\r\n"
    ensures FixedResponse(BadRequest)
         == "HTTP/1.1 " + "400 Bad request format" + "\r\n" + ("Content-Type: " + "application/json" + "\r\n") + "Content-Length: " + "0" + "\r\n\r\n"
    ensures FixedResponse(KeyNotFound)
         == "HTTP/1.1 " + "404 Public key not found" + "\r\n" + ("Content-Type: " + "application/json" + "\r\n") + "Content-Length: " + "0" + "\r\n\r\n"
  {
  }

  lemma StatusIsPlain(f: Fixed)
    ensures Plain(StatusLine(f))
  {
    assert Plain("HTTP/1.1 ");
    ReasonIsPlain(f);
    PlainConcat("HTTP/1.1 ", Reason(f));
  }

  lemma ReasonIsPlain(f: Fixed)
    ensures Plain(Reason(f))
  {
    match f {
      case Upcheck =>
      case BadRequest => BadRequestIsPlain();
      case KeyNotFound => KeyNotFoundIsPlain();
      case Imported => ImportedIsPlain();
    }
  }

  lemma BadRequestIsPlain() ensures Plain("400 Bad request format") {}

  lemma KeyNotFoundIsPlain() ensures Plain("404 Public key not found") {}

  lemma ImportedIsPlain() ensures Plain("200 Success response") {}

  lemma PlainConcat(a: string, b: string)
    ensures Plain(a) && Plain(b) ==> Plain(a + b)
  {
  }

  /** The spelled-out lengths are right, so these responses are framed too. */
  lemma FixedIsFramed(f: Fixed)
    ensures HeadOk(FixedHead(f))
    ensures FixedResponse(f) == Framed(FixedHead(f), if f == Imported then KEYSTORE_BODY else "")
  {
    StatusIsPlain(f);
    HeadIsOk(StatusLine(f), if f == Upcheck then "text/plain; charset=utf-8" else "application/json");
    ImportedLength();
  }

  lemma ImportedLength()
    ensures |KEYSTORE_BODY| == 48 && Decimal(48) == "48" && Decimal(0) == "0"
  {
    assert Decimal(4) == "4";
  }

  method FixedRoundTrip(f: Fixed, rest: string) returns (read: string)
    ensures read == FixedResponse(f)
  {
    FixedIsFramed(f);
    var ok;
    read, ok := ReadResponse(FixedResponse(f) + rest, FixedHead(f), if f == Imported then KEYSTORE_BODY else "");
  }
}
