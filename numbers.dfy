/** Integer parsing and printing as JavaScript does them: `parseInt` (with radix
    10, and with the radix left out, which also reads a `0x` prefix),
    `String(n)` of an integer, and `padStart`. */
module Numbers {
  import opened Wrappers
  import opened Text

  predicate AllDigits(s: string) {
    forall i :: 0 <= i < |s| ==> IsDigit(s[i])
  }

  function DigitVal(c: char): (d: nat)
    requires IsDigit(c)
    ensures d < 10
  {
    c as int - '0' as int
  }

  function DigitChar(d: nat): (c: char)
    requires d < 10
    ensures IsDigit(c) && DigitVal(c) == d
  {
    ('0' as int + d) as char
  }

  /** The value of a string of decimal digits, read most significant first. */
  function DigitsValue(s: string): nat
    requires AllDigits(s)
  {
    if s == [] then 0 else DigitsValue(s[..|s| - 1]) * 10 + DigitVal(s[|s| - 1])
  }

  /** The longest prefix of decimal digits. */
  function LeadingDigits(s: string): (r: string)
    ensures |r| <= |s| && r == s[..|r|] && AllDigits(r)
    ensures |r| < |s| ==> !IsDigit(s[|r|])
  {
    if |s| > 0 && IsDigit(s[0]) then [s[0]] + LeadingDigits(s[1..]) else ""
  }

  predicate IsHexDigit(c: char) {
    IsDigit(c) || ('a' <= c <= 'f') || ('A' <= c <= 'F')
  }

  predicate AllHexDigits(s: string) {
    forall i :: 0 <= i < |s| ==> IsHexDigit(s[i])
  }

  function HexVal(c: char): (d: nat)
    requires IsHexDigit(c)
    ensures d < 16
  {
    if IsDigit(c) then DigitVal(c)
    else if 'a' <= c <= 'f' then c as int - 'a' as int + 10
    else c as int - 'A' as int + 10
  }

  function HexValue(s: string): nat
    requires AllHexDigits(s)
  {
    if s == [] then 0 else HexValue(s[..|s| - 1]) * 16 + HexVal(s[|s| - 1])
  }

  function LeadingHexDigits(s: string): (r: string)
    ensures |r| <= |s| && r == s[..|r|] && AllHexDigits(r)
  {
    if |s| > 0 && IsHexDigit(s[0]) then [s[0]] + LeadingHexDigits(s[1..]) else ""
  }

  /** The sign of a `parseInt` argument after leading white space: `-1` or `1`,
      and the text after the sign. */
  function SplitSign(s: string): (int, string) {
    var t := TrimStart(s);
    if |t| > 0 && t[0] == '-' then (-1, t[1..])
    else if |t| > 0 && t[0] == '+' then (1, t[1..])
    else (1, t)
  }

  /** `parseInt(s, 10)`: leading white space, an optional sign, then the longest
      run of decimal digits; `None` stands for `NaN` (no digit at all). */
  function ParseInt(s: string): Option<int> {
    var (sign, body) := SplitSign(s);
    var d := LeadingDigits(body);
    if d == [] then None else Some(sign * DigitsValue(d))
  }

  /** `parseInt(s)` with the radix left out: as `ParseInt`, except that a `0x` or
      `0X` after the sign switches to hexadecimal. */
  function ParseIntAuto(s: string): Option<int> {
    var (sign, body) := SplitSign(s);
    if |body| >= 2 && body[0] == '0' && (body[1] == 'x' || body[1] == 'X') then
      var h := LeadingHexDigits(body[2..]);
      if h == [] then None else Some(sign * HexValue(h))
    else
      var d := LeadingDigits(body);
      if d == [] then None else Some(sign * DigitsValue(d))
  }

  /** `String(n)` for a natural number. */
  function NatToDecimal(n: nat): (r: string)
    ensures |r| >= 1
  {
    if n < 10 then [DigitChar(n)] else NatToDecimal(n / 10) + [DigitChar(n % 10)]
  }

  /** `String(n)` for an integer. */
  function IntToString(n: int): (r: string)
    ensures |r| >= 1
  {
    if n < 0 then "-" + NatToDecimal(-n) else NatToDecimal(n)
  }

  /** `s.padStart(width, c)`. */
  function PadStart(s: string, width: nat, c: char): (r: string)
    ensures |r| == if |s| >= width then |s| else width
  {
    if |s| >= width then s else seq(width - |s|, _ => c) + s
  }

  // ---------------------------------------------------------------------
  // Printing and parsing are inverse

  /** The decimal form of `n` is all digits, without a leading zero, and reads back as `n`. */
  lemma {:induction false} DecimalValue(n: nat)
    ensures AllDigits(NatToDecimal(n))
    ensures DigitsValue(NatToDecimal(n)) == n
    ensures NatToDecimal(n)[0] == '0' ==> n == 0
    decreases n
  {
    if n >= 10 {
      DecimalValue(n / 10);
      var r := NatToDecimal(n);
      assert r[..|r| - 1] == NatToDecimal(n / 10);
    }
  }

  /** A run of digits is its own longest digit prefix. */
  lemma {:induction false} LeadingDigitsOfDigits(s: string)
    requires AllDigits(s)
    ensures LeadingDigits(s) == s
    decreases |s|
  {
    if |s| > 0 {
      LeadingDigitsOfDigits(s[1..]);
    }
  }

  /** Leading zeros do not change the value. */
  lemma {:induction false} LeadingZeros(z: nat, s: string)
    requires AllDigits(s)
    ensures AllDigits(seq(z, _ => '0') + s)
    ensures DigitsValue(seq(z, _ => '0') + s) == DigitsValue(s)
    decreases |s|
  {
    var zs: string := seq(z, _ => '0');
    if |s| == 0 {
      assert zs + s == zs;
      ZerosValue(z);
    } else {
      LeadingZeros(z, s[..|s| - 1]);
      assert (zs + s)[..|zs + s| - 1] == zs + s[..|s| - 1];
    }
  }

  lemma {:induction false} ZerosValue(z: nat)
    ensures AllDigits(seq(z, _ => '0'))
    ensures DigitsValue(seq(z, _ => '0')) == 0
    decreases z
  {
    if z > 0 {
      ZerosValue(z - 1);
      assert seq(z, _ => '0')[..z - 1] == seq(z - 1, _ => '0');
    }
  }

  /** `parseInt(String(n), 10) == n` for every integer `n`. */
  lemma ParseIntOfString(n: int)
    ensures ParseInt(IntToString(n)) == Some(n)
  {
    ParseIntThen(n, "");
    assert IntToString(n) + "" == IntToString(n);
  }

  /** `parseInt` of a zero-padded decimal reads the number back. */
  lemma ParseIntOfPadded(n: nat, width: nat)
    ensures ParseInt(PadStart(NatToDecimal(n), width, '0')) == Some(n)
  {
    var d := NatToDecimal(n);
    DecimalValue(n);
    var p := PadStart(d, width, '0');
    if |d| < width {
      LeadingZeros(width - |d|, d);
    }
    assert AllDigits(p) && DigitsValue(p) == n;
    LeadingDigitsOfDigits(p);
    assert IsDigit(p[0]);
    assert !IsWs(p[0]);
    assert TrimStart(p) == p;
    assert SplitSign(p) == (1, p);
  }

  /** The longest digit prefix of digits followed by a non-digit is those
      digits. */
  lemma {:induction false} LeadingDigitsThen(d: string, rest: string)
    requires AllDigits(d)
    requires |rest| > 0 ==> !IsDigit(rest[0])
    ensures LeadingDigits(d + rest) == d
    decreases |d|
  {
    if |d| > 0 {
      LeadingDigitsThen(d[1..], rest);
      assert (d + rest)[1..] == d[1..] + rest;
    } else {
      assert d + rest == rest;
    }
  }

  /** `parseInt` of a number's text followed by anything that does not
      start with a digit reads the number. */
  lemma ParseIntThen(n: int, rest: string)
    requires |rest| > 0 ==> !IsDigit(rest[0])
    ensures ParseInt(IntToString(n) + rest) == Some(n)
  {
    if n < 0 {
      var d := NatToDecimal(-n);
      DecimalValue(-n);
      assert IntToString(n) == "-" + d;
      assert IntToString(n) + rest == "-" + (d + rest);
      ParseNegativeThen(d, rest);
    } else {
      var d := NatToDecimal(n);
      DecimalValue(n);
      assert IntToString(n) == d;
      ParseDigitsThen(d, rest);
    }
  }

  /** `parseInt` of a minus sign, a run of digits and a non-digit. */
  lemma ParseNegativeThen(d: string, rest: string)
    requires |d| > 0 && AllDigits(d)
    requires |rest| > 0 ==> !IsDigit(rest[0])
    ensures ParseInt("-" + (d + rest)) == Some(-1 * DigitsValue(d))
  {
    MinusSign(d + rest);
    LeadingDigitsThen(d, rest);
    ParseIntParts("-" + (d + rest), -1, d + rest, d);
  }

  /** `parseInt` from its sign, the text after the sign and its digits. */
  lemma ParseIntParts(s: string, sign: int, body: string, d: string)
    requires SplitSign(s) == (sign, body) && LeadingDigits(body) == d && d != []
    ensures ParseInt(s) == Some(sign * DigitsValue(d))
  {
  }

  lemma MinusSign(body: string)
    ensures SplitSign("-" + body) == (-1, body)
  {
    var s := "-" + body;
    assert !IsWs(s[0]);
    assert TrimStart(s) == s;
    assert s[1..] == body;
  }

  /** `parseInt` of a run of digits followed by a non-digit reads the run. */
  lemma ParseDigitsThen(d: string, rest: string)
    requires |d| > 0 && AllDigits(d)
    requires |rest| > 0 ==> !IsDigit(rest[0])
    ensures ParseInt(d + rest) == Some(DigitsValue(d))
  {
    LeadingDigitsThen(d, rest);
    DigitFirst(d + rest);
    ParseIntParts(d + rest, 1, d + rest, d);
  }

  lemma DigitFirst(s: string)
    requires |s| > 0 && IsDigit(s[0])
    ensures SplitSign(s) == (1, s)
  {
    assert !IsWs(s[0]);
    assert TrimStart(s) == s;
  }
}
