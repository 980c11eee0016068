/** Decimal text of integers: `std::to_string`, zero-padded printing, the `%d` conversion of
    `sscanf` and `std::from_chars`, with the round trips between them. */
module Decimal {
  import opened Options

  const INT32_MIN := -0x8000_0000
  const INT32_MAX := 0x7fff_ffff
  const INT64_MIN := -0x8000_0000_0000_0000
  const INT64_MAX := 0x7fff_ffff_ffff_ffff

  predicate IsDigit(c: char) { '0' <= c <= '9' }

  function DigitChar(d: int): (c: char)
    requires 0 <= d <= 9
    ensures IsDigit(c) && DigitValue(c) == d
  {
    ('0' as int + d) as char
  }

  function DigitValue(c: char): (d: int)
    requires IsDigit(c)
    ensures 0 <= d <= 9
  {
    c as int - '0' as int
  }

  predicate AllDigits(s: string) { forall i :: 0 <= i < |s| ==> IsDigit(s[i]) }

  /** The number a digit string denotes, most significant digit first. */
  function Value(s: string): (n: int)
    requires AllDigits(s)
    ensures n >= 0
  {
    if s == "" then 0 else 10 * Value(s[..|s| - 1]) + DigitValue(s[|s| - 1])
  }

  function NatToString(n: nat): (s: string)
    ensures AllDigits(s) && |s| >= 1
    ensures Value(s) == n
  {
    if n < 10 then [DigitChar(n)] else
      var s := NatToString(n / 10) + [DigitChar(n % 10)];
      assert s[..|s| - 1] == NatToString(n / 10);
      s
  }

  function IntToString(n: int): (s: string) {
    if n < 0 then "-" + NatToString(-n) else NatToString(n)
  }

  function Zeros(k: nat): (s: string)
    ensures |s| == k && forall i :: 0 <= i < k ==> s[i] == '0'
  {
    seq(k, _ => '0')
  }

  function PadZeros(s: string, width: nat): (r: string) {
    if |s| >= width then s else Zeros(width - |s|) + s
  }

  /** `%0<width>d`: the sign counts toward the width and comes before the zeros. */
  function PrintPadded(n: int, width: nat): (s: string) {
    if n < 0 then "-" + PadZeros(NatToString(-n), if width > 0 then width - 1 else 0)
    else PadZeros(NatToString(n), width)
  }

  lemma {:induction false} LeadingZeros(k: nat, s: string)
    requires AllDigits(s)
    ensures Value(Zeros(k) + s) == Value(s)
    decreases |s|, k
  {
    var t := Zeros(k) + s;
    if s != "" {
      assert t[..|t| - 1] == Zeros(k) + s[..|s| - 1];
      LeadingZeros(k, s[..|s| - 1]);
    } else if k > 0 {
      assert t[..|t| - 1] == Zeros(k - 1) + s;
      LeadingZeros(k - 1, s);
    }
  }

  lemma PadKeepsValue(n: nat, width: nat)
    ensures var t := PadZeros(NatToString(n), width); AllDigits(t) && t != "" && Value(t) == n
  {
    var s := NatToString(n);
    if |s| < width {
      LeadingZeros(width - |s|, s);
    }
  }

  function Power10(k: nat): (p: nat) { if k == 0 then 1 else 10 * Power10(k - 1) }

  lemma {:induction false} NatLength(n: nat, k: nat)
    requires 1 <= k && n < Power10(k)
    ensures |NatToString(n)| <= k
  {
    if n >= 10 {
      NatLength(n / 10, k - 1);
    }
  }

  lemma PrintedLength(n: int, width: nat, k: nat)
    requires 2 <= width <= k <= 11
    requires if k == 2 then 0 <= n <= 99 else k == 11 && INT32_MIN <= n <= INT32_MAX
    ensures |PrintPadded(n, width)| <= k
  {
    if k == 2 {
      assert Power10(2) == 100;
      NatLength(n, 2);
    } else {
      assert Power10(5) == 100000;
      assert Power10(10) == 10000000000;
      NatLength(if n < 0 then -n else n, 10);
    }
  }

  /** Printing pads to exactly the width, with digits that denote the number. */
  lemma PaddedText(n: nat, width: nat)
    requires width >= 1 && n < Power10(width)
    ensures var t := PrintPadded(n, width); |t| == width && AllDigits(t) && Value(t) == n
  {
    NatLength(n, width);
    PadKeepsValue(n, width);
  }

  /** `std::to_string` writes no leading zero. */
  lemma {:induction false} NoLeadingZero(n: nat)
    ensures |NatToString(n)| > 1 ==> NatToString(n)[0] != '0'
    ensures n > 0 ==> NatToString(n)[0] != '0'
  {
    if n < 10 {
    } else {
      NoLeadingZero(n / 10);
    }
  }

  // ----- Scanning -----

  predicate IsSpace(c: char) { c == ' ' || '\t' <= c <= '\r' }

  /** How many characters at the front of `s` are digits. */
  function DigitRun(s: string): (k: nat)
    ensures k <= |s| && AllDigits(s[..k]) && (k < |s| ==> !IsDigit(s[k]))
  {
    if s == "" || !IsDigit(s[0]) then 0 else 1 + DigitRun(s[1..])
  }

  function SkipSpace(s: string): (r: string) {
    if s != "" && IsSpace(s[0]) then SkipSpace(s[1..]) else s
  }

  /** One `%d`: white space, an optional sign, then as many digits as there are. A value that does
      not fit an `int` is undefined in the source and does not convert here. */
  function ScanInt(s: string): (r: Option<(int, string)>) {
    var t := SkipSpace(s);
    var signed := t != "" && (t[0] == '-' || t[0] == '+');
    var u := if signed then t[1..] else t;
    ScanDigits(signed && t[0] == '-', u)
  }

  function ScanDigits(negative: bool, u: string): (r: Option<(int, string)>) {
    var k := DigitRun(u);
    Converted(negative, u[..k], u[k..])
  }

  function Converted(negative: bool, digits: string, rest: string): (r: Option<(int, string)>)
    requires AllDigits(digits)
  {
    var v := if negative then -Value(digits) else Value(digits);
    if digits == "" || v < INT32_MIN || v > INT32_MAX then None else Some((v, rest))
  }

  /** `std::from_chars` into a variable that starts at 0: no white space, no plus sign, anything
      after the digits is ignored, and no digits or an `int64` overflow leaves the 0. */
  function FromChars(s: string): (v: int)
    ensures INT64_MIN <= v <= INT64_MAX
  {
    var negative := s != "" && s[0] == '-';
    var u := if negative then s[1..] else s;
    var k := DigitRun(u);
    var v: int := if negative then -Value(u[..k]) else Value(u[..k]);
    if INT64_MIN <= v <= INT64_MAX then v else 0
  }

  lemma {:induction false} DigitRunStops(t: string, rest: string)
    requires AllDigits(t) && (rest == "" || !IsDigit(rest[0]))
    ensures DigitRun(t + rest) == |t|
  {
    if t != "" {
      assert (t + rest)[1..] == t[1..] + rest;
      DigitRunStops(t[1..], rest);
    } else {
      assert t + rest == rest;
    }
  }

  lemma ScanDigitsStops(negative: bool, digits: string, rest: string)
    requires AllDigits(digits) && digits != "" && (rest == "" || !IsDigit(rest[0]))
    requires Value(digits) <= INT32_MAX || (negative && -Value(digits) == INT32_MIN)
    ensures ScanDigits(negative, digits + rest) ==
            Some((if negative then -Value(digits) else Value(digits), rest))
  {
    hide Value;
    DigitRunStops(digits, rest);
    assert (digits + rest)[..|digits|] == digits;
    assert (digits + rest)[|digits|..] == rest;
  }

  /** `%d` reads back what `%0<width>d` printed and stops at the next character. */
  lemma ScanPrinted(n: int, width: nat, rest: string)
    requires INT32_MIN <= n <= INT32_MAX
    requires rest == "" || !IsDigit(rest[0])
    ensures ScanInt(PrintPadded(n, width) + rest) == Some((n, rest))
  {
    hide ScanInt, Value;
    if n < 0 {
      var w := if width > 0 then width - 1 else 0;
      PadKeepsValue(-n, w);
      ScanSigned(PadZeros(NatToString(-n), w), rest);
    } else {
      PadKeepsValue(n, width);
      ScanUnsigned(PadZeros(NatToString(n), width), rest);
    }
  }

  lemma ScanSigned(digits: string, rest: string)
    requires AllDigits(digits) && digits != "" && (rest == "" || !IsDigit(rest[0])) && -Value(digits) >= INT32_MIN
    ensures ScanInt("-" + digits + rest) == Some((-Value(digits), rest))
  {
    hide Value, ScanDigits;
    var text := "-" + digits + rest;
    assert SkipSpace(text) == text;
    assert text[1..] == digits + rest;
    ScanDigitsStops(true, digits, rest);
  }

  lemma ScanUnsigned(digits: string, rest: string)
    requires AllDigits(digits) && digits != "" && (rest == "" || !IsDigit(rest[0])) && Value(digits) <= INT32_MAX
    ensures ScanInt(digits + rest) == Some((Value(digits), rest))
  {
    hide Value, ScanDigits;
    var text := digits + rest;
    assert IsDigit(text[0]);
    assert SkipSpace(text) == text;
    ScanDigitsStops(false, digits, rest);
  }

  /** `%d` skips white space. */
  lemma ScanSkipsSpace(c: char, text: string)
    requires IsSpace(c)
    ensures ScanInt([c] + text) == ScanInt(text)
  {
    hide ScanDigits;
    assert ([c] + text)[1..] == text;
    assert SkipSpace([c] + text) == SkipSpace(text);
  }

  /** `%d` takes a plus sign. */
  lemma ScanTakesPlus(digits: string, rest: string)
    requires AllDigits(digits) && digits != "" && (rest == "" || !IsDigit(rest[0])) && Value(digits) <= INT32_MAX
    ensures ScanInt("+" + digits + rest) == Some((Value(digits), rest))
  {
    hide Value, ScanDigits;
    var text := "+" + digits + rest;
    assert SkipSpace(text) == text;
    assert text[1..] == digits + rest;
    ScanDigitsStops(false, digits, rest);
  }

  /** `from_chars` reads back what `to_string` wrote, for every `int64`. */
  lemma FromCharsReadsToString(n: int)
    requires INT64_MIN <= n <= INT64_MAX
    ensures FromChars(IntToString(n)) == n
  {
    var digits := NatToString(if n < 0 then -n else n);
    DigitRunStops(digits, "");
    assert digits + "" == digits && digits[..|digits|] == digits;
    if n < 0 {
      assert IntToString(n)[1..] == digits;
    }
  }

  /** `to_string` never writes the same text for two numbers, and never a separator. */
  lemma IntToStringIsInjective(a: int, b: int)
    ensures IntToString(a) == IntToString(b) ==> a == b
  {
    if IntToString(a) == IntToString(b) {
      assert (a < 0) == (IntToString(a)[0] == '-');
      assert (b < 0) == (IntToString(b)[0] == '-');
      if a < 0 {
        assert IntToString(a)[1..] == NatToString(-a) && IntToString(b)[1..] == NatToString(-b);
      }
    }
  }

  lemma IntToStringHasNoColon(n: int)
    ensures ':' !in IntToString(n)
  {
    var digits := NatToString(if n < 0 then -n else n);
    assert AllDigits(digits);
  }

  /** Text before the first colon and after it are fixed by the whole. */
  lemma ColonSplitsOnce(x: string, y: string, u: string, v: string)
    requires ':' !in x && ':' !in u
    requires x + ":" + y == u + ":" + v
    ensures x == u && y == v
  {
    var s := x + ":" + y;
    assert s[|x|] == ':' && s[|u|] == ':';
    assert forall i :: 0 <= i < |x| ==> x[i] == s[i];
    assert forall i :: 0 <= i < |u| ==> u[i] == s[i];
    assert |x| == |u|;
    assert x == s[..|x|] && u == s[..|x|];
    assert y == s[|x| + 1..] && v == s[|x| + 1..];
  }
}
