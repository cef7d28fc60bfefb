/**
 * The slice of JavaScript number semantics the countdown relies on:
 * integral numbers and NaN, their conversion to strings (`value + ''`),
 * and `parseInt(x) || 0` on a field of an offset string.
 */
module JsNumber {

  /** A JavaScript number restricted to what the countdown produces: an integer or NaN. */
  datatype Num = Int(i: int) | NaN

  function DigitChar(d: nat): (c: char)
    requires d < 10
    ensures '0' <= c <= '9'
    ensures c as int - '0' as int == d
  {
    (('0' as int) + d) as char
  }

  predicate IsDecimalDigit(c: char) {
    '0' <= c <= '9'
  }

  /** Shortest decimal numeral of a non-negative integer. */
  function Digits(n: nat): (s: string)
    ensures |s| >= 1
    ensures forall i :: 0 <= i < |s| ==> IsDecimalDigit(s[i])
    ensures s[0] == '0' <==> n == 0
    ensures n == 0 ==> s == "0"
  {
    if n < 10 then [DigitChar(n)] else Digits(n / 10) + [DigitChar(n % 10)]
  }

  /** `String(x)` for an integral number or NaN: a minus sign before negative values. */
  function Text(x: Num): (s: string)
    ensures |s| >= 1
    ensures x.NaN? <==> s == "NaN"
    ensures x.Int? && x.i >= 0 ==> s == Digits(x.i)
    ensures x.Int? && x.i < 0 ==> s == "-" + Digits(-x.i)
  {
    match x
    case NaN => "NaN"
    case Int(i) =>
      if i < 0 then
        var s := "-" + Digits(-i);
        assert s[0] != "NaN"[0];
        s
      else
        var s := Digits(i);
        assert IsDecimalDigit(s[0]);
        s
  }

  /** The characters ECMAScript's string-to-number trimming removes
      (WhiteSpace and LineTerminator, including every Zs space). */
  predicate IsStrWhiteSpace(c: char) {
    var u := c as int;
    || u == 0x09 || u == 0x0A || u == 0x0B || u == 0x0C || u == 0x0D
    || u == 0x20 || u == 0xA0 || u == 0x1680
    || (0x2000 <= u <= 0x200A)
    || u == 0x2028 || u == 0x2029 || u == 0x202F || u == 0x205F
    || u == 0x3000 || u == 0xFEFF
  }

  /** Removes leading white space, as `parseInt` does first. */
  function TrimStart(s: string): (r: string)
    ensures |r| <= |s| && r == s[|s| - |r|..]
    ensures forall i :: 0 <= i < |s| - |r| ==> IsStrWhiteSpace(s[i])
    ensures |r| > 0 ==> !IsStrWhiteSpace(r[0])
  {
    if |s| > 0 && IsStrWhiteSpace(s[0]) then TrimStart(s[1..]) else s
  }

  /** Value of an ASCII letter or digit as a digit in radix 36; 36 for anything else. */
  function DigitValue(c: char): (v: nat)
    ensures v <= 36
    ensures v < 10 <==> IsDecimalDigit(c)
  {
    if '0' <= c <= '9' then c as int - '0' as int
    else if 'a' <= c <= 'z' then c as int - 'a' as int + 10
    else if 'A' <= c <= 'Z' then c as int - 'A' as int + 10
    else 36
  }

  /** Length of the longest prefix of `s` made of digits of the given radix. */
  function DigitRunLength(s: string, radix: nat): (k: nat)
    ensures k <= |s|
    ensures forall i :: 0 <= i < k ==> DigitValue(s[i]) < radix
    ensures k < |s| ==> DigitValue(s[k]) >= radix
  {
    if |s| > 0 && DigitValue(s[0]) < radix then 1 + DigitRunLength(s[1..], radix) else 0
  }

  /** Positional value of a run of digits, most significant first. */
  function RunValue(s: string, radix: nat): nat
    requires radix == 10 || radix == 16
  {
    if |s| == 0 then 0
    else
      var high := RunValue(s[..|s| - 1], radix);
      (if radix == 10 then high * 10 else high * 16) + DigitValue(s[|s| - 1])
  }

  /** Whether `body` starts with the `0x` or `0X` prefix that selects radix 16. */
  predicate HexPrefixed(body: string) {
    |body| >= 2 && body[0] == '0' && (body[1] == 'x' || body[1] == 'X')
  }

  /** `parseInt` on the text after the sign: `0x`/`0X` selects radix 16, otherwise
      radix 10; the value is that of the longest digit run, NaN when the run is empty. */
  function ParseUnsigned(body: string): (r: Num)
    ensures r.NaN? <==>
      if HexPrefixed(body) then |body| == 2 || DigitValue(body[2]) >= 16
      else |body| == 0 || !IsDecimalDigit(body[0])
    ensures r.Int? ==> r.i >= 0
  {
    var hex := HexPrefixed(body);
    var radix := if hex then 16 else 10;
    var digits := if hex then body[2..] else body;
    var k := DigitRunLength(digits, radix);
    if k == 0 then NaN else Int(RunValue(digits[..k], radix))
  }

  /** `parseInt(s)` with no radix argument, for inputs whose value is an exact integer:
      leading white space is trimmed and one `+` or `-` sign is read before the digits.
      The ensures only follow the definition step by step, as an unfolding aid for
      the solver; what `parseInt` returns for a given text is stated by
      ParseIntDecimalRun, ParseIntHexRun, ParseIntNoDigits and ParseIntHexNoDigits. */
  function ParseInt(s: string): (r: Num)
    ensures r.NaN? <==> ParseUnsigned(SignlessPart(TrimStart(s))).NaN?
    ensures r.Int? && |TrimStart(s)| > 0 && TrimStart(s)[0] == '-' ==>
      r.i == -ParseUnsigned(SignlessPart(TrimStart(s))).i
    ensures r.Int? && !(|TrimStart(s)| > 0 && TrimStart(s)[0] == '-') ==>
      r.i == ParseUnsigned(SignlessPart(TrimStart(s))).i
  {
    var u := TrimStart(s);
    match ParseUnsigned(SignlessPart(u))
    case NaN => NaN
    case Int(v) => Int(if |u| > 0 && u[0] == '-' then -v else v)
  }

  /** The text after an optional leading `+` or `-`. */
  function SignlessPart(u: string): (body: string)
    ensures |u| > 0 && (u[0] == '-' || u[0] == '+') ==> body == u[1..]
    ensures !(|u| > 0 && (u[0] == '-' || u[0] == '+')) ==> body == u
  {
    if |u| > 0 && (u[0] == '-' || u[0] == '+') then u[1..] else u
  }

  /** `parseInt(s) || 0`: NaN (and -0) become 0. */
  function ParseIntOrZero(s: string): (n: int)
    ensures n == 0 <==> ParseInt(s) == NaN || ParseInt(s) == Int(0)
    ensures n != 0 ==> ParseInt(s) == Int(n)
  {
    match ParseInt(s)
    case Int(i) => i
    case NaN => 0
  }

  lemma {:induction false} DigitsValue(n: nat)
    ensures DigitRunLength(Digits(n), 10) == |Digits(n)|
    ensures RunValue(Digits(n), 10) == n
    decreases n
  {
    var s := Digits(n);
    if n >= 10 {
      DigitsValue(n / 10);
      assert s[..|s| - 1] == Digits(n / 10);
      assert DigitValue(s[|s| - 1]) == n % 10;
    }
  }

  /** The unsigned part of `parseInt` reads a decimal numeral back exactly. */
  lemma ParseUnsignedDigits(n: nat)
    ensures ParseUnsigned(Digits(n)) == Int(n)
  {
    var d := Digits(n);
    assert !HexPrefixed(d);
    DigitsValue(n);
    assert d[..|d|] == d;
  }

  lemma ParseIntNaN()
    ensures ParseInt("NaN") == NaN
  {
    assert TrimStart("NaN") == "NaN";
    assert SignlessPart("NaN") == "NaN";
    assert DigitValue("NaN"[0]) == 23;
  }

  lemma ParseIntNonNegative(n: nat)
    ensures ParseInt(Digits(n)) == Int(n)
  {
    var t := Digits(n);
    assert IsDecimalDigit(t[0]);
    assert !IsStrWhiteSpace(t[0]);
    assert TrimStart(t) == t;
    assert SignlessPart(t) == t;
    ParseUnsignedDigits(n);
  }

  lemma ParseIntNegative(n: nat)
    requires n > 0
    ensures ParseInt("-" + Digits(n)) == Int(-(n as int))
  {
    var t := "-" + Digits(n);
    assert t[0] == '-';
    assert !IsStrWhiteSpace(t[0]);
    assert TrimStart(t) == t;
    assert SignlessPart(t) == Digits(n);
    ParseUnsignedDigits(n);
  }

  /** `parseInt` reads back exactly the integer that `String` wrote, and NaN stays NaN. */
  lemma ParseIntInvertsText(x: Num)
    ensures ParseInt(Text(x)) == x
  {
    match x
    case NaN => ParseIntNaN();
    case Int(i) =>
      if i < 0 {
        ParseIntNegative(-i);
      } else {
        ParseIntNonNegative(i);
      }
  }

  lemma ConcatAssociates(x: string, y: string, z: string)
    ensures x + (y + z) == (x + y) + z
  {
  }

  /** Leading white space is skipped up to the first other character. */
  lemma {:induction false} TrimWhiteSpace(w: string, t: string)
    requires forall i :: 0 <= i < |w| ==> IsStrWhiteSpace(w[i])
    requires |t| == 0 || !IsStrWhiteSpace(t[0])
    ensures TrimStart(w + t) == t
    decreases |w|
  {
    if |w| == 0 {
      assert w + t == t;
    } else {
      assert (w + t)[1..] == w[1..] + t;
      TrimWhiteSpace(w[1..], t);
    }
  }

  /** A digit run ends at the first character that is not a digit of the radix. */
  lemma DigitRunOf(d: string, rest: string, radix: nat)
    requires forall i :: 0 <= i < |d| ==> DigitValue(d[i]) < radix
    requires |rest| == 0 || DigitValue(rest[0]) >= radix
    ensures DigitRunLength(d + rest, radix) == |d|
    ensures (d + rest)[..|d|] == d
  {
  }

  /** Nothing, or one `+` or `-`: the sign `parseInt` reads. */
  predicate OptionalSign(sign: string) {
    |sign| <= 1 && (|sign| == 1 ==> sign[0] == '+' || sign[0] == '-')
  }

  predicate Negative(sign: string) {
    |sign| == 1 && sign[0] == '-'
  }

  /** `v` with the sign applied. */
  function Signed(sign: string, v: int): int {
    if Negative(sign) then -v else v
  }

  /** The text that follows the white space and an optional sign. */
  lemma SignedBody(w: string, sign: string, body: string)
    requires forall i :: 0 <= i < |w| ==> IsStrWhiteSpace(w[i])
    requires OptionalSign(sign)
    requires |sign| == 0 && |body| > 0 ==> !IsStrWhiteSpace(body[0]) && body[0] != '+' && body[0] != '-'
    ensures var u := TrimStart(w + sign + body);
      && SignlessPart(u) == body
      && (|u| > 0 && u[0] == '-' <==> Negative(sign))
  {
    var u := sign + body;
    ConcatAssociates(w, sign, body);
    if |sign| > 0 {
      assert u[0] == sign[0];
      assert u[1..] == body;
    } else {
      assert u == body;
    }
    TrimWhiteSpace(w, u);
  }

  lemma DigitIsPlain(c: char)
    requires IsDecimalDigit(c)
    ensures !IsStrWhiteSpace(c) && c != '+' && c != '-'
  {
  }

  /** A decimal digit run that is not the `0` of a `0x` prefix reads as its value. */
  lemma DecimalBody(d: string, rest: string)
    requires |d| > 0 && forall i :: 0 <= i < |d| ==> IsDecimalDigit(d[i])
    requires |rest| == 0 || !IsDecimalDigit(rest[0])
    requires !(d == "0" && |rest| > 0 && (rest[0] == 'x' || rest[0] == 'X'))
    ensures ParseUnsigned(d + rest) == Int(RunValue(d, 10))
  {
    var body := d + rest;
    assert body[0] == d[0];
    if |d| >= 2 {
      assert body[1] == d[1];
    } else if d[0] == '0' {
      assert d == "0";
    }
    assert !HexPrefixed(body);
    DigitRunOf(d, rest, 10);
  }

  /** A `0x`-prefixed run of hexadecimal digits reads as its value in radix 16. */
  lemma HexBody(x: char, h: string, rest: string)
    requires x == 'x' || x == 'X'
    requires |h| > 0 && forall i :: 0 <= i < |h| ==> DigitValue(h[i]) < 16
    requires |rest| == 0 || DigitValue(rest[0]) >= 16
    ensures ParseUnsigned(['0', x] + (h + rest)) == Int(RunValue(h, 16))
  {
    var body := ['0', x] + (h + rest);
    assert HexPrefixed(body) && body[2..] == h + rest;
    DigitRunOf(h, rest, 16);
  }

  /** `parseInt` applies the sign it read to the value of the text after it. */
  lemma SignApplied(s: string, sign: string, body: string, v: int)
    requires SignlessPart(TrimStart(s)) == body
    requires |TrimStart(s)| > 0 && TrimStart(s)[0] == '-' <==> Negative(sign)
    requires ParseUnsigned(body) == Int(v)
    ensures ParseInt(s) == Int(Signed(sign, v))
  {
  }

  /** White space, an optional sign, then a text that reads as `v`: the signed `v`. */
  lemma ParseIntSigned(w: string, sign: string, body: string, v: int)
    requires forall i :: 0 <= i < |w| ==> IsStrWhiteSpace(w[i])
    requires OptionalSign(sign)
    requires |sign| == 0 && |body| > 0 ==> !IsStrWhiteSpace(body[0]) && body[0] != '+' && body[0] != '-'
    requires ParseUnsigned(body) == Int(v)
    ensures ParseInt(w + sign + body) == Int(Signed(sign, v))
  {
    SignedBody(w, sign, body);
    SignApplied(w + sign + body, sign, body, v);
  }

  /** `parseInt` of white space, an optional sign and a decimal digit run that
      is not the `0` of a `0x` prefix: the signed value of the run, whatever follows it. */
  lemma ParseIntDecimalRun(w: string, sign: string, d: string, rest: string)
    requires forall i :: 0 <= i < |w| ==> IsStrWhiteSpace(w[i])
    requires OptionalSign(sign)
    requires |d| > 0 && forall i :: 0 <= i < |d| ==> IsDecimalDigit(d[i])
    requires |rest| == 0 || !IsDecimalDigit(rest[0])
    requires !(d == "0" && |rest| > 0 && (rest[0] == 'x' || rest[0] == 'X'))
    ensures ParseInt(w + sign + (d + rest)) == Int(Signed(sign, RunValue(d, 10)))
  {
    var body := d + rest;
    assert body[0] == d[0];
    DigitIsPlain(d[0]);
    DecimalBody(d, rest);
    ParseIntSigned(w, sign, body, RunValue(d, 10));
  }

  /** `parseInt` of white space, an optional sign, `0x` or `0X` and a run of
      hexadecimal digits: the signed value of the run in radix 16. */
  lemma ParseIntHexRun(w: string, sign: string, x: char, h: string, rest: string)
    requires forall i :: 0 <= i < |w| ==> IsStrWhiteSpace(w[i])
    requires OptionalSign(sign)
    requires x == 'x' || x == 'X'
    requires |h| > 0 && forall i :: 0 <= i < |h| ==> DigitValue(h[i]) < 16
    requires |rest| == 0 || DigitValue(rest[0]) >= 16
    ensures ParseInt(w + sign + (['0', x] + (h + rest))) == Int(Signed(sign, RunValue(h, 16)))
  {
    var body := ['0', x] + (h + rest);
    HexBody(x, h, rest);
    ParseIntSigned(w, sign, body, RunValue(h, 16));
  }

  /** When no decimal digit follows the white space and the sign, `parseInt`
      gives NaN. */
  lemma ParseIntNoDigits(w: string, sign: string, rest: string)
    requires forall i :: 0 <= i < |w| ==> IsStrWhiteSpace(w[i])
    requires OptionalSign(sign)
    requires |rest| == 0 || !IsDecimalDigit(rest[0])
    requires |sign| == 0 && |rest| > 0 ==> !IsStrWhiteSpace(rest[0]) && rest[0] != '+' && rest[0] != '-'
    ensures ParseInt(w + sign + rest) == NaN
  {
    assert ParseUnsigned(rest).NaN? by {
      assert !HexPrefixed(rest);
    }
    SignedBody(w, sign, rest);
  }

  /** `0x` with no hexadecimal digit after it gives NaN, although a digit
      follows the sign. */
  lemma ParseIntHexNoDigits(w: string, sign: string, x: char, rest: string)
    requires forall i :: 0 <= i < |w| ==> IsStrWhiteSpace(w[i])
    requires OptionalSign(sign)
    requires x == 'x' || x == 'X'
    requires |rest| == 0 || DigitValue(rest[0]) >= 16
    ensures ParseInt(w + sign + (['0', x] + rest)) == NaN
  {
    var body := ['0', x] + rest;
    assert ParseUnsigned(body).NaN? by {
      assert HexPrefixed(body);
      assert |body| > 2 ==> body[2] == rest[0];
    }
    SignedBody(w, sign, body);
  }
}
