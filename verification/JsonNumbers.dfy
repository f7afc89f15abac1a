/** numValue's bound check: comparing lengths, then comparing text with strcmp, decides
    whether a canonical decimal integer fits in 64 bits. */
module JsonNumbers {
  import opened JsonText

  /** strcmp(a, b) < 0 for NUL-free strings. */
  predicate StrLess(a: string, b: string)
    decreases |a|
  {
    if b == "" then false
    else if a == "" then true
    else if a[0] != b[0] then a[0] < b[0]
    else StrLess(a[1..], b[1..])
  }

  predicate Digits(s: string) { forall k :: 0 <= k < |s| ==> Digit(s[k]) }

  function Pow10(n: nat): (p: nat)
    ensures p >= 1
  {
    if n == 0 then 1 else 10 * Pow10(n - 1)
  }

  lemma {:induction false} Pow10Monotone(a: nat, b: nat)
    requires a <= b
    ensures Pow10(a) <= Pow10(b)
    decreases b
  {
    if a < b { Pow10Monotone(a, b - 1); }
  }

  lemma {:induction false} ValueBound(s: string)
    requires Digits(s)
    ensures DigitsValue(s) < Pow10(|s|)
  {
    if s != "" { ValueBound(s[..|s| - 1]); }
  }

  /** The leading digit carries the highest power. */
  lemma {:induction false} ValueFront(s: string)
    requires Digits(s) && s != ""
    ensures DigitsValue(s) == DigitOf(s[0]) * Pow10(|s| - 1) + DigitsValue(s[1..])
  {
    if |s| == 1 {
      assert s[..0] == "" && s[1..] == "";
    } else {
      var init := s[..|s| - 1];
      ValueFront(init);
      assert init[1..] == s[1..][..|s| - 2];
      assert 10 * (DigitOf(s[0]) * Pow10(|s| - 2)) == DigitOf(s[0]) * (10 * Pow10(|s| - 2));
    }
  }

  /** For digit strings of one length, text order is numeric order. */
  lemma {:induction false} TextOrderIsNumeric(a: string, b: string)
    requires Digits(a) && Digits(b) && |a| == |b|
    ensures StrLess(a, b) <==> DigitsValue(a) < DigitsValue(b)
    decreases |a|
  {
    if a != "" {
      ValueFront(a);
      ValueFront(b);
      ValueBound(a[1..]);
      ValueBound(b[1..]);
      TextOrderIsNumeric(a[1..], b[1..]);
      FrontDecides(DigitOf(a[0]), DigitOf(b[0]), Pow10(|a| - 1), DigitsValue(a[1..]), DigitsValue(b[1..]));
    }
  }

  lemma FrontDecides(x: nat, y: nat, p: nat, u: nat, v: nat)
    requires u < p && v < p
    ensures x < y ==> x * p + u < y * p + v
    ensures x > y ==> x * p + u > y * p + v
  {
    if x < y { assert y * p >= (x + 1) * p == x * p + p; }
    if x > y { assert x * p >= (y + 1) * p == y * p + p; }
  }

  lemma TimesAtLeast(x: nat, p: nat)
    requires x >= 1
    ensures x * p >= p
  {
  }

  /** A number of n digits without leading zero is at least 10^(n-1). */
  lemma ValueLowerBound(s: string)
    requires Digits(s) && s != "" && s[0] != '0'
    ensures DigitsValue(s) >= Pow10(|s| - 1)
  {
    ValueFront(s);
    TimesAtLeast(DigitOf(s[0]), Pow10(|s| - 1));
  }

  const MAX_TEXT := "9223372036854775807"
  const MIN_TEXT := "-9223372036854775808"

  lemma NextDigit(s: string, k: nat, v: nat)
    requires Digits(s) && k < |s| && DigitsValue(s[..k]) == v
    ensures DigitsValue(s[..k + 1]) == 10 * v + DigitOf(s[k])
  {
    assert s[..k + 1][..k] == s[..k];
  }

  lemma NextThree(s: string, k: nat, v: nat)
    requires Digits(s) && k + 2 < |s| && DigitsValue(s[..k]) == v
    ensures DigitsValue(s[..k + 3]) == 1000 * v + 100 * DigitOf(s[k]) + 10 * DigitOf(s[k + 1]) + DigitOf(s[k + 2])
  {
    NextDigit(s, k, v);
    NextDigit(s, k + 1, 10 * v + DigitOf(s[k]));
    NextDigit(s, k + 2, 100 * v + 10 * DigitOf(s[k]) + DigitOf(s[k + 1]));
  }

  lemma MaxPrefix()
    ensures Digits(MAX_TEXT) && |MAX_TEXT| == 19 && DigitsValue(MAX_TEXT[..9]) == 922337203
  {
    var s := MAX_TEXT;
    NextThree(s, 0, 0);
    NextThree(s, 3, 922);
    NextThree(s, 6, 922337);
  }

  lemma MaxValue()
    ensures Digits(MAX_TEXT) && |MAX_TEXT| == 19
    ensures DigitsValue(MAX_TEXT[..18]) == 922337203685477580 && DigitsValue(MAX_TEXT) == 0x7fff_ffff_ffff_ffff
  {
    var s := MAX_TEXT;
    MaxPrefix();
    NextThree(s, 9, 922337203);
    NextThree(s, 12, 922337203685);
    NextThree(s, 15, 922337203685477);
    NextDigit(s, 18, 922337203685477580);
    assert s[..19] == s;
  }

  lemma MinValue()
    ensures MIN_TEXT[0] == '-' && |MIN_TEXT| == 20
    ensures Digits(MIN_TEXT[1..]) && DigitsValue(MIN_TEXT[1..]) == 0x8000_0000_0000_0000
  {
    var s := MIN_TEXT[1..];
    MaxValue();
    assert s[..18] == MAX_TEXT[..18];
    NextDigit(s, 18, 922337203685477580);
    assert s[..19] == s;
  }

  /** No leading zero unless the only digit is zero. */
  predicate Canonical(s: string) {
    IsInteger(s) && var d := if s[0] == '-' then s[1..] else s; |d| == 1 || d[0] != '0'
  }

  /** The check of lines 288-299 on the token text. */
  predicate BoundCheck(s: string)
    requires s != ""
  {
    var negative := s[0] == '-';
    var maxdigits := if negative then |MIN_TEXT| else |MAX_TEXT|;
    if |s| > maxdigits then false
    else if |s| == maxdigits then !StrLess(if negative then MIN_TEXT else MAX_TEXT, s)
    else true
  }

  lemma Powers()
    ensures Pow10(18) == 1_000_000_000_000_000_000 && Pow10(19) == 10_000_000_000_000_000_000
  {
    assert Pow10(6) == 1_000_000;
    assert Pow10(12) == 1_000_000_000_000;
    assert Pow10(18) == 1_000_000_000_000_000_000;
  }

  /** Among numbers without leading zero, length decides first and text order second. */
  lemma DigitsFit(d: string, max: string, n: nat)
    requires Digits(d) && d != "" && (|d| == 1 || d[0] != '0')
    requires Digits(max) && |max| == n + 1 && n > 0 && Pow10(n) <= DigitsValue(max) < Pow10(n + 1)
    ensures DigitsValue(d) <= DigitsValue(max) <==> |d| <= n || (|d| == n + 1 && !StrLess(max, d))
  {
    if |d| <= n {
      ValueBound(d);
      Pow10Monotone(|d|, n);
    } else if |d| == n + 1 {
      TextOrderIsNumeric(max, d);
    } else {
      ValueLowerBound(d);
      Pow10Monotone(n + 1, |d| - 1);
    }
  }

  /** A canonical integer token of any length passes the check exactly when it fits. */
  lemma BoundCheckIsInt64(s: string)
    requires Canonical(s)
    ensures BoundCheck(s) <==> InInt64(IntegerValue(s))
  {
    Powers();
    MaxValue();
    MinValue();
    if s[0] == '-' {
      DigitsFit(s[1..], MIN_TEXT[1..], 18);
    } else {
      DigitsFit(s, MAX_TEXT, 18);
    }
  }

  lemma TokenIsCanonical(t: string, p: nat)
    requires p <= |t| && IntegerEnd(t, p).Some?
    ensures Canonical(t[p..IntegerEnd(t, p).value])
  {
    IntegerTokenShape(t, p);
    var e := IntegerEnd(t, p).value;
    var q, s := if At(t, p) == '-' then p + 1 else p, t[p..e];
    assert s[0] == t[p] && s[q - p] == t[q];
    assert t[q] == '0' ==> e == q + 1;
    var d := if s[0] == '-' then s[1..] else s;
    assert d == t[q..e] && d[0] == t[q];
  }
}
