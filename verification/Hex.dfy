/** lib/common.c: hexadecimal text and bytes; and htru64 of lib/merkleization.h, which
    goes from a 64-bit number to its SSZ chunk by printing and re-reading hex. */
module Hex {
  import opened Words

  predicate IsHexDigit(c: char) {
    '0' <= c <= '9' || 'a' <= c <= 'f' || 'A' <= c <= 'F'
  }

  predicate AllHex(s: seq<char>) { forall k :: 0 <= k < |s| ==> IsHexDigit(s[k]) }

  function Nibble(c: char): (r: nat)
    requires IsHexDigit(c)
    ensures r < 16
  {
    if '0' <= c <= '9' then c as int - '0' as int
    else if 'a' <= c <= 'f' then c as int - 'a' as int + 10
    else c as int - 'A' as int + 10
  }

  function HexDigit(x: nat): (c: char)
    requires x < 16
    ensures IsHexDigit(c) && Nibble(c) == x
  {
    if x <= 9 then (x + '0' as int) as char else (x - 10 + 'a' as int) as char
  }

  /** The sixteen digits, of either case. */
  lemma HexAlphabet(x: nat, c: char)
    requires x < 16
    ensures HexDigit(x) == "0123456789abcdef"[x]
    ensures var d := "0123456789ABCDEF"[x]; IsHexDigit(d) && Nibble(d) == x && Lower(d) == HexDigit(x)
    ensures IsHexDigit(c) <==> c in "0123456789abcdefABCDEF"
  {
    var all := "0123456789abcdefABCDEF";
    if IsHexDigit(c) {
      var n := Nibble(c);
      assert c == all[n] || c == all[n + 6];
    }
  }

  function PairByte(c: char, d: char): (r: Byte)
    requires IsHexDigit(c) && IsHexDigit(d)
    ensures r / 16 == Nibble(c) && r % 16 == Nibble(d)
  {
    16 * Nibble(c) + Nibble(d)
  }

  function HexPair(b: Byte): (r: seq<char>)
    ensures |r| == 2 && AllHex(r)
  {
    [HexDigit(b / 16), HexDigit(b % 16)]
  }

  lemma PairRoundTrip(c: char, d: char, b: Byte)
    ensures PairByte(HexPair(b)[0], HexPair(b)[1]) == b
    ensures IsHexDigit(c) && IsHexDigit(d) ==> HexPair(PairByte(c, d)) == [Lower(c), Lower(d)]
  {
  }

  function HexBytes(s: seq<char>): (r: seq<Byte>)
    requires AllHex(s) && |s| % 2 == 0
    ensures |r| == |s| / 2
  {
    if s == [] then []
    else HexBytes(s[..|s| - 2]) + [PairByte(s[|s| - 2], s[|s| - 1])]
  }

  /** An odd number of digits is read as having a leading zero nibble. */
  function Even(s: seq<char>): (r: seq<char>)
    ensures |r| % 2 == 0 && |r| / 2 == |s| / 2 + |s| % 2
  {
    if |s| % 2 == 1 then ['0'] + s else s
  }

  function DecodeHex(s: seq<char>): (r: seq<Byte>)
    requires AllHex(s)
    ensures |r| == |s| / 2 + |s| % 2
  {
    HexBytes(Even(s))
  }

  function HexOf(bs: seq<Byte>): (r: seq<char>)
    ensures |r| == 2 * |bs| && AllHex(r)
  {
    if bs == [] then []
    else HexOf(bs[..|bs| - 1]) + HexPair(bs[|bs| - 1])
  }

  function Lower(c: char): (r: char) {
    if 'A' <= c <= 'F' then (c as int - 'A' as int + 'a' as int) as char else c
  }

  function LowerAll(s: seq<char>): (r: seq<char>)
    ensures |r| == |s| && forall i :: 0 <= i < |s| ==> r[i] == Lower(s[i])
  {
    seq(|s|, i requires 0 <= i < |s| => Lower(s[i]))
  }

  lemma {:induction false} DecodeHexOf(bs: seq<Byte>)
    ensures DecodeHex(HexOf(bs)) == bs
  {
    if bs != [] {
      var init := bs[..|bs| - 1];
      DecodeHexOf(init);
      assert HexOf(bs)[..|HexOf(bs)| - 2] == HexOf(init);
      PairRoundTrip('0', '0', bs[|bs| - 1]);
    }
  }

  lemma HexOfSnoc(bs: seq<Byte>, b: Byte)
    ensures HexOf(bs + [b]) == HexOf(bs) + HexPair(b)
  {
    assert (bs + [b])[..|bs + [b]| - 1] == bs;
  }

  lemma LowerAllSnoc(s: seq<char>, c: char, d: char)
    ensures LowerAll(s + [c, d]) == LowerAll(s) + [Lower(c), Lower(d)]
  {
  }

  lemma {:induction false} HexOfBytes(s: seq<char>)
    requires AllHex(s) && |s| % 2 == 0
    ensures HexOf(HexBytes(s)) == LowerAll(s)
  {
    if s != [] {
      var init, c, d := s[..|s| - 2], s[|s| - 2], s[|s| - 1];
      assert s == init + [c, d];
      HexOfBytes(init);
      PairRoundTrip(c, d, 0);
      HexOfSnoc(HexBytes(init), PairByte(c, d));
      LowerAllSnoc(init, c, d);
    }
  }

  /** Printing what was read gives the lower-case text, with the leading zero made explicit. */
  lemma HexOfDecode(s: seq<char>)
    requires AllHex(s)
    ensures HexOf(DecodeHex(s)) == LowerAll(Even(s))
  {
    HexOfBytes(Even(s));
  }

  lemma HexBytesSnoc(t: seq<char>, k: nat)
    requires 2 * k + 1 < |t| && AllHex(t[..2 * k]) && IsHexDigit(t[2 * k]) && IsHexDigit(t[2 * k + 1])
    ensures AllHex(t[..2 * (k + 1)])
    ensures HexBytes(t[..2 * (k + 1)]) == HexBytes(t[..2 * k]) + [PairByte(t[2 * k], t[2 * k + 1])]
  {
    var u := t[..2 * (k + 1)];
    assert u[..|u| - 2] == t[..2 * k];
  }

  lemma {:induction false} HexBytesConcat(s: seq<char>, t: seq<char>)
    requires AllHex(s) && AllHex(t) && |s| % 2 == 0 && |t| % 2 == 0
    ensures AllHex(s + t) && HexBytes(s + t) == HexBytes(s) + HexBytes(t)
  {
    if t == [] {
      assert s + t == s;
    } else {
      HexBytesConcat(s, t[..|t| - 2]);
      assert (s + t)[..|s + t| - 2] == s + t[..|t| - 2];
    }
  }

  /** The regular conversion loop of hex2bin, from `hex` and `buf` already advanced. */
  method ConvertPairs(hex: seq<char>, buf: array<Byte>, from: nat, half: nat) returns (ok: bool)
    requires |hex| == 2 * half && from + half <= buf.Length
    modifies buf
    ensures ok == AllHex(hex)
    ensures ok ==> buf[from..from + half] == HexBytes(hex)
    ensures buf[..from] == old(buf[..from]) && buf[from + half..] == old(buf[from + half..])
  {
    for i := 0 to half
      invariant AllHex(hex[..2 * i])
      invariant buf[from..from + i] == HexBytes(hex[..2 * i])
      invariant buf[..from] == old(buf[..from]) && buf[from + half..] == old(buf[from + half..])
    {
      var c, d := hex[2 * i], hex[2 * i + 1];
      ghost var done := buf[from..from + i];
      if !IsHexDigit(c) { return false; }
      buf[from + i] := 16 * Nibble(c);
      if !IsHexDigit(d) { return false; }
      buf[from + i] := buf[from + i] + Nibble(d);
      HexBytesSnoc(hex, i);
      assert buf[from..from + (i + 1)] == done + [PairByte(c, d)];
    }
    assert hex[..2 * half] == hex;
    return true;
  }

  lemma DecodeOdd(hex: seq<char>)
    requires |hex| % 2 == 1 && IsHexDigit(hex[0]) && AllHex(hex[1..])
    ensures AllHex(hex) && DecodeHex(hex) == [PairByte('0', hex[0])] + HexBytes(hex[1..])
  {
    forall k | 0 <= k < |hex| ensures IsHexDigit(hex[k]) { assert k > 0 ==> hex[k] == hex[1..][k - 1]; }
    assert ['0'] + hex == ['0', hex[0]] + hex[1..];
    HexBytesConcat(['0', hex[0]], hex[1..]);
    assert HexBytes(['0', hex[0]]) == [PairByte('0', hex[0])];
  }

  /** The room hex2bin asks for. */
  function Room(hex: seq<char>): nat { |hex| / 2 + |hex| % 2 }

  /** The odd case: one leading nibble, then pairs. */
  method ConvertOdd(hex: seq<char>, buf: array<Byte>, half: nat) returns (ok: bool)
    requires |hex| == 2 * half + 1 && half < buf.Length
    modifies buf
    ensures ok == AllHex(hex)
    ensures ok ==> buf[..half + 1] == DecodeHex(hex)
    ensures buf[half + 1..] == old(buf[half + 1..])
  {
    if !IsHexDigit(hex[0]) { return false; }
    buf[0] := Nibble(hex[0]);
    ghost var first := buf[..1];
    ok := ConvertPairs(hex[1..], buf, 1, half);
    if ok {
      DecodeOdd(hex);
      assert first == [PairByte('0', hex[0])];
      assert buf[..half + 1] == first + buf[1..half + 1];
    }
  }

  /** hex2bin. A zero result means too little room, a non-hex character, or no input. */
  method Hex2Bin(hex: seq<char>, buf: array<Byte>, buflen: nat) returns (n: nat)
    requires buflen <= buf.Length
    modifies buf
    ensures n == if AllHex(hex) && Room(hex) <= buflen then Room(hex) else 0
    ensures n > 0 ==> AllHex(hex) && buf[..n] == DecodeHex(hex)
    ensures buflen < Room(hex) ==> buf[..] == old(buf[..])
    ensures Room(hex) <= buflen ==> buf[Room(hex)..] == old(buf[Room(hex)..])
  {
    if buflen < Room(hex) { return 0; }
    var ok;
    if |hex| % 2 == 1 {
      ok := ConvertOdd(hex, buf, |hex| / 2);
    } else {
      ok := ConvertPairs(hex, buf, 0, |hex| / 2);
      assert buf[0..Room(hex)] == buf[..Room(hex)];
    }
    n := if ok then Room(hex) else 0;
  }

  lemma HexStep(orig: seq<char>, buf: seq<Byte>, i: nat)
    requires i < |buf| && 2 * |buf| < |orig|
    ensures (HexOf(buf[..i]) + orig[2 * i..])[2 * i := HexDigit(buf[i] / 16)][2 * i + 1 := HexDigit(buf[i] % 16)]
         == HexOf(buf[..i + 1]) + orig[2 * (i + 1)..]
  {
    assert buf[..i + 1] == buf[..i] + [buf[i]];
    HexOfSnoc(buf[..i], buf[i]);
    assert orig[2 * i..] == [orig[2 * i], orig[2 * i + 1]] + orig[2 * (i + 1)..];
  }

  /** The loop of bin2hex. */
  method PrintPairs(buf: seq<Byte>, hex: array<char>)
    requires 2 * |buf| < hex.Length
    modifies hex
    ensures hex[..] == HexOf(buf) + old(hex[..])[2 * |buf|..]
  {
    ghost var orig := hex[..];
    for i := 0 to |buf|
      invariant hex[..] == HexOf(buf[..i]) + orig[2 * i..]
    {
      HexStep(orig, buf, i);
      hex[2 * i] := HexDigit(buf[i] / 16);
      hex[2 * i + 1] := HexDigit(buf[i] % 16);
      assert hex[..] == (HexOf(buf[..i]) + orig[2 * i..])[2 * i := HexDigit(buf[i] / 16)][2 * i + 1 := HexDigit(buf[i] % 16)];
    }
    assert buf[..|buf|] == buf;
  }

  lemma Terminated(orig: seq<char>, digits: seq<char>)
    requires |digits| < |orig|
    ensures (digits + orig[|digits|..])[|digits| := 0 as char] == digits + [0 as char] + orig[|digits| + 1..]
  {
    assert orig[|digits|..] == [orig[|digits|]] + orig[|digits| + 1..];
  }

  /** bin2hex. The guard admits a terminator one past hexlen, so room for it is the caller's duty. */
  method Bin2Hex(buf: seq<Byte>, hex: array<char>, hexlen: nat) returns (n: nat)
    requires 2 * |buf| <= hexlen + 1 ==> 2 * |buf| < hex.Length
    modifies hex
    ensures n == if hexlen + 1 < 2 * |buf| then 0 else 2 * |buf|
    ensures hexlen + 1 < 2 * |buf| ==> hex[..] == old(hex[..])
    ensures hexlen + 1 >= 2 * |buf| ==> hex[..] == HexOf(buf) + [0 as char] + old(hex[..])[n + 1..]
  {
    if hexlen + 1 < 2 * |buf| { return 0; }
    ghost var orig := hex[..];
    PrintPairs(buf, hex);
    n := 2 * |buf|;
    hex[n] := 0 as char;
    assert hex[..] == (HexOf(buf) + orig[n..])[n := 0 as char];
    Terminated(orig, HexOf(buf));
  }

  // ----- numbers as bytes and as hex text

  function Pow256(n: nat): nat { if n == 0 then 1 else 256 * Pow256(n - 1) }

  function LeBytes(t: nat, n: nat): (r: seq<Byte>)
    ensures |r| == n
    decreases n
  {
    if n == 0 then [] else [t % 256] + LeBytes(t / 256, n - 1)
  }

  function BeBytes(t: nat, n: nat): (r: seq<Byte>)
    ensures |r| == n
    decreases n
  {
    if n == 0 then [] else BeBytes(t / 256, n - 1) + [t % 256]
  }

  function LeValue(bs: seq<Byte>): nat { if bs == [] then 0 else bs[0] + 256 * LeValue(bs[1..]) }

  function BeValue(bs: seq<Byte>): nat {
    if bs == [] then 0 else 256 * BeValue(bs[..|bs| - 1]) + bs[|bs| - 1]
  }

  /** sys_be64_to_cpu on a little-endian CPU: the bytes read in the other order. */
  function Swap64(t: nat): nat { BeValue(LeBytes(t, 8)) }

  /** printf's zero-padded hexadecimal of n digits. */
  function HexPrint(t: nat, n: nat): (r: seq<char>)
    ensures |r| == n && AllHex(r)
    decreases n
  {
    if n == 0 then [] else HexPrint(t / 16, n - 1) + [HexDigit(t % 16)]
  }

  /** The SSZ chunk of a 64-bit number: little-endian, zero-padded. */
  function U64Chunk(t: nat): (r: Chunk) {
    LeBytes(t, 8) + ZeroBytes(24)
  }

  lemma {:induction false} BeBytesOfValue(bs: seq<Byte>)
    ensures BeBytes(BeValue(bs), |bs|) == bs
  {
    if bs != [] { BeBytesOfValue(bs[..|bs| - 1]); }
  }

  lemma {:induction false} LeValueOfBytes(t: nat, n: nat)
    requires t < Pow256(n)
    ensures LeValue(LeBytes(t, n)) == t
    decreases n
  {
    if n > 0 {
      LeValueOfBytes(t / 256, n - 1);
      assert LeBytes(t, n)[1..] == LeBytes(t / 256, n - 1);
    }
  }

  lemma {:induction false} HexPrintIsHexOf(t: nat, n: nat)
    ensures HexPrint(t, 2 * n) == HexOf(BeBytes(t, n))
    decreases n
  {
    if n > 0 {
      var q, bs := t / 256, BeBytes(t / 256, n - 1);
      HexPrintIsHexOf(q, n - 1);
      SplitNibbles(t);
      assert HexPrint(t, 2 * n) == HexPrint(q, 2 * n - 2) + [HexDigit(t / 16 % 16)] + [HexDigit(t % 16)];
      HexOfSnoc(bs, t % 256);
    }
  }

  lemma SplitNibbles(t: nat)
    ensures t / 16 / 16 == t / 256 && t / 16 % 16 == t % 256 / 16 && t % 16 == t % 256 % 16
  {
  }

  lemma {:induction false} HexZeros(n: nat, t: seq<char>)
    requires |t| == 2 * n && forall k :: 0 <= k < |t| ==> t[k] == '0'
    ensures AllHex(t) && HexBytes(t) == ZeroBytes(n)
  {
    if n > 0 { HexZeros(n - 1, t[..|t| - 2]); }
  }

  /** Printing the swapped number in hex and reading it back gives the little-endian chunk. */
  lemma PrintedChunk(t: nat, fill: seq<char>)
    requires |fill| == 48 && forall k :: 0 <= k < |fill| ==> fill[k] == '0'
    ensures AllHex(HexPrint(Swap64(t), 16) + fill)
    ensures DecodeHex(HexPrint(Swap64(t), 16) + fill) == U64Chunk(t)
  {
    var bs, digits := LeBytes(t, 8), HexPrint(Swap64(t), 16);
    HexPrintIsHexOf(Swap64(t), 8);
    BeBytesOfValue(bs);
    DecodeHexOf(bs);
    HexZeros(24, fill);
    HexBytesConcat(digits, fill);
  }

  /** htru64: byte swap, print as 16 hex digits, fill with '0', read 64 digits back. */
  method Htru64(t: nat) returns (r: Chunk)
    requires t < Pow256(8)
    ensures r == U64Chunk(t)
  {
    var fill := seq(48, _ => '0');
    PrintedChunk(t, fill);
    var buf := new Byte[32](_ => 0);
    var n := Hex2Bin(HexPrint(Swap64(t), 16) + fill, buf, 32);
    r := buf[..n];
  }

  lemma U64ChunkInjective(a: nat, b: nat)
    requires a < Pow256(8) && b < Pow256(8) && U64Chunk(a) == U64Chunk(b)
    ensures a == b
  {
    assert LeBytes(a, 8) == U64Chunk(a)[..8] && LeBytes(b, 8) == U64Chunk(b)[..8];
    LeValueOfBytes(a, 8);
    LeValueOfBytes(b, 8);
  }

  lemma QuotientUnique(t: nat, m: nat, u: nat, r: nat)
    requires m > 0 && t == u * m + r && r < m
    ensures t / m == u
  {
    var q := t / m;
    assert q * m <= t < q * m + m;
    if q < u { MulMonotone(q + 1, u, m); }
    if u < q { MulMonotone(u + 1, q, m); }
  }

  lemma DivideTwice(t: nat, b: nat)
    requires b > 0
    ensures t / 256 / b == t / (256 * b)
  {
    var q, u := t / 256, t / 256 / b;
    var p, m := b * u, 256 * b;
    assert p <= q < p + b;
    assert u * m == 256 * p;
    QuotientUnique(t, m, u, t - 256 * p);
  }

  lemma {:induction false} LeByte(t: nat, n: nat, k: nat)
    requires k < n
    ensures Pow256(k) > 0 && LeBytes(t, n)[k] == t / Pow256(k) % 256
    decreases k
  {
    if k > 0 {
      LeByte(t / 256, n - 1, k - 1);
      DivideTwice(t, Pow256(k - 1));
    }
  }

  /** Byte k of a number's chunk is its digit k to the base 256; the other 24 bytes are zero. */
  lemma U64ChunkByte(t: nat, k: nat)
    requires k < 32
    ensures Pow256(k) > 0 && U64Chunk(t)[k] == if k < 8 then t / Pow256(k) % 256 else 0
  {
    LeByte(t, k + 1, k);
    if k < 8 { LeByte(t, 8, k); }
  }
}
