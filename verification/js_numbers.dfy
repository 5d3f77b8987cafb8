/** The part of JavaScript's number handling the handlers rely on: `parseInt` applied to a
    query-string value, with no radix argument (ECMA-262, section 19.2.5, "parseInt (string, radix)").
    NaN is `None`; every other result is an exact integer. */
module JsNumbers {
  import opened Wrappers

  /** StrWhiteSpaceChar: the white space and line terminator code points `parseInt` skips
      before the number. */
  predicate IsWhiteSpace(c: char) {
    || c == '\t' || c == '\n' || c == '\U{B}' || c == '\U{C}' || c == '\r' || c == ' '
    || c == '\U{A0}' || c == '\U{1680}' || ('\U{2000}' <= c <= '\U{200A}')
    || c == '\U{2028}' || c == '\U{2029}' || c == '\U{202F}' || c == '\U{205F}'
    || c == '\U{3000}' || c == '\U{FEFF}'
  }

  predicate IsAsciiAlphanumeric(c: char) {
    ('0' <= c <= '9') || ('a' <= c <= 'z') || ('A' <= c <= 'Z')
  }

  /** The value of a digit in any radix up to 36: `0`-`9`, then letters of either case from 10. */
  function DigitValue(c: char): (d: nat)
    requires IsAsciiAlphanumeric(c)
    ensures d < 36
  {
    if '0' <= c <= '9' then c as nat - '0' as nat
    else if 'a' <= c <= 'z' then c as nat - 'a' as nat + 10
    else c as nat - 'A' as nat + 10
  }

  predicate IsDigit(c: char, radix: nat) {
    IsAsciiAlphanumeric(c) && DigitValue(c) < radix
  }

  /** Length of the longest prefix made of white space. */
  function LeadingWhiteSpace(s: string): (k: nat)
    ensures k <= |s|
    ensures forall i :: 0 <= i < k ==> IsWhiteSpace(s[i])
    ensures k == |s| || !IsWhiteSpace(s[k])
  {
    if s != [] && IsWhiteSpace(s[0]) then 1 + LeadingWhiteSpace(s[1..]) else 0
  }

  /** Drops leading white space. */
  function TrimStart(s: string): string {
    s[LeadingWhiteSpace(s)..]
  }

  /** Length of the longest prefix made of digits of the given radix. */
  function DigitPrefixLength(s: string, radix: nat): (n: nat)
    ensures n <= |s|
    ensures forall i :: 0 <= i < n ==> IsDigit(s[i], radix)
    ensures n == |s| || !IsDigit(s[n], radix)
  {
    if s != [] && IsDigit(s[0], radix) then 1 + DigitPrefixLength(s[1..], radix) else 0
  }

  /** The integer a digit string denotes in the given radix, most significant digit first. */
  function DigitsValue(z: string, radix: nat): nat
    requires forall i :: 0 <= i < |z| ==> IsDigit(z[i], radix)
  {
    if z == [] then 0
    else
      assert IsDigit(z[|z| - 1], radix);
      AppendDigit(DigitsValue(z[..|z| - 1], radix), radix, DigitValue(z[|z| - 1]))
  }

  /** The value of a digit string after one more digit `d` is written at its end. */
  function AppendDigit(v: nat, radix: nat, d: nat): nat {
    v * radix + d
  }

  /** `parseInt(input)`: skip leading white space, then read a signed magnitude. A number comes
      out only when the first character after the white space is a decimal digit, or a sign
      followed by one; a `-` gives a number that is not positive, otherwise it is not negative. */
  function ParseInt(input: string): (r: Option<int>)
    ensures r.Some? ==> StartsNumeral(TrimStart(input))
    ensures r.Some? && TrimStart(input)[0] == '-' ==> r.value <= 0
    ensures r.Some? && TrimStart(input)[0] != '-' ==> r.value >= 0
  {
    ParseSigned(TrimStart(input))
  }

  predicate IsDecimalDigit(c: char) {
    '0' <= c <= '9'
  }

  /** `s` opens with a decimal digit, or with a sign and then a decimal digit. */
  predicate StartsNumeral(s: string) {
    && s != []
    && (IsDecimalDigit(s[0]) || ((s[0] == '-' || s[0] == '+') && |s| > 1 && IsDecimalDigit(s[1])))
  }

  /** One optional sign, then the magnitude; `-` negates it. */
  function ParseSigned(s: string): Option<int> {
    if s != [] && s[0] == '-' then Negate(ParseMagnitude(s[1..]))
    else if s != [] && s[0] == '+' then Widen(ParseMagnitude(s[1..]))
    else Widen(ParseMagnitude(s))
  }

  function Widen(m: Option<nat>): Option<int> {
    match m
    case None => None
    case Some(v) => Some(v)
  }

  /** Radix 16 after a `0x`/`0X` prefix, radix 10 otherwise. */
  function ParseMagnitude(u: string): Option<nat> {
    if |u| >= 2 && u[0] == '0' && (u[1] == 'x' || u[1] == 'X') then ReadDigits(u[2..], 16)
    else ReadDigits(u, 10)
  }

  /** The value of the longest run of digits at the front of `body`; NaN when that run is empty. */
  function ReadDigits(body: string, radix: nat): Option<nat> {
    var end := DigitPrefixLength(body, radix);
    if end == 0 then None else Some(DigitsValue(body[..end], radix))
  }

  /** The digit character of value `d`, lower-case beyond 9. */
  function DigitChar(d: nat): (c: char)
    requires d < 16
    ensures IsAsciiAlphanumeric(c) && DigitValue(c) == d
  {
    ['0', '1', '2', '3', '4', '5', '6', '7', '8', '9', 'a', 'b', 'c', 'd', 'e', 'f'][d]
  }

  /** The shortest numeral of `n` in one of the two radices `parseInt` reads by itself. */
  function NatToNumeral(n: nat, radix: nat): (s: string)
    requires radix == 10 || radix == 16
    ensures |s| > 0
    ensures forall i :: 0 <= i < |s| ==> IsDigit(s[i], radix)
    ensures s[0] == '0' ==> n == 0
  {
    if n < radix then [DigitChar(n)]
    else
      SplitLastDigit(n, radix);
      NatToNumeral(n / radix, radix) + [DigitChar(n % radix)]
  }

  /** Splitting off the last digit of a number of at least two digits. */
  lemma SplitLastDigit(n: nat, radix: nat)
    requires radix == 10 || radix == 16
    requires radix <= n
    ensures n / radix < n && n % radix < radix
    ensures n == AppendDigit(n / radix, radix, n % radix)
  {
    // Splitting on the radix turns the division facts into ones about a constant divisor.
    if radix == 10 {
    } else {
    }
  }

  /** The shortest decimal numeral of `n`. */
  function NatToDecimal(n: nat): (s: string)
    ensures |s| > 0
    ensures forall i :: 0 <= i < |s| ==> IsDigit(s[i], 10)
    ensures s[0] == '0' ==> n == 0
  {
    NatToNumeral(n, 10)
  }

  /** `t` may follow the decimal numeral of `n` without being read as part of it: it does not
      start with a digit, nor, when the numeral is `0`, with an `x` that would make it a
      hexadecimal prefix. */
  predicate CannotContinueNumeral(n: int, t: string) {
    t == [] || (!IsDigit(t[0], 10) && (n != 0 || (t[0] != 'x' && t[0] != 'X')))
  }

  /** The decimal numeral of `n`, with a leading `-` when it is negative. */
  function IntToDecimal(n: int): string {
    if n < 0 then ['-'] + NatToDecimal(-n) else NatToDecimal(n)
  }

  /** The numeral of `n` denotes `n`. */
  lemma {:induction false} NumeralValue(n: nat, radix: nat)
    requires radix == 10 || radix == 16
    ensures DigitsValue(NatToNumeral(n, radix), radix) == n
  {
    if n >= radix {
      var s := NatToNumeral(n, radix);
      SplitLastDigit(n, radix);
      assert s[..|s| - 1] == NatToNumeral(n / radix, radix);
      NumeralValue(n / radix, radix);
    }
  }

  /** The digit run of `d + t` is exactly `d` when `t` does not continue it. */
  lemma {:induction false} DigitPrefixOfDigits(d: string, t: string, radix: nat)
    requires forall i :: 0 <= i < |d| ==> IsDigit(d[i], radix)
    requires t == [] || !IsDigit(t[0], radix)
    ensures DigitPrefixLength(d + t, radix) == |d|
  {
    if d != [] {
      assert (d + t)[1..] == d[1..] + t;
      DigitPrefixOfDigits(d[1..], t, radix);
    } else {
      assert d + t == t;
    }
  }

  /** `parseInt` reads back the decimal numeral of any integer, and stops at the first character
      that cannot continue it: `parseInt("12.9")` is 12, `parseInt("-7px")` is -7,
      `parseInt("12x")` is 12. */
  lemma ParseIntReadsDecimalPrefix(n: int, t: string)
    requires CannotContinueNumeral(n, t)
    ensures ParseInt(IntToDecimal(n) + t) == Some(n)
  {
    if n < 0 {
      NegativeNumeralParses(n, t);
    } else {
      NonNegativeNumeralParses(n, t);
    }
  }

  lemma NegativeNumeralParses(n: int, t: string)
    requires n < 0
    requires CannotContinueNumeral(n, t)
    ensures ParseInt(IntToDecimal(n) + t) == Some(n)
  {
    var m: nat := -n;
    var s := IntToDecimal(n) + t;
    assert s != [] && s[0] == '-' && s[1..] == NatToDecimal(m) + t by {
      NegativeNumeralShape(n, m, t);
    }
    assert ParseInt(s) == Some(n) by {
      SignedDecimal(s, m, t);
    }
  }

  lemma NegativeNumeralShape(n: int, m: nat, t: string)
    requires n < 0 && m == -n
    ensures IntToDecimal(n) + t != [] && (IntToDecimal(n) + t)[0] == '-'
    ensures (IntToDecimal(n) + t)[1..] == NatToDecimal(m) + t
  {
    var d := NatToDecimal(m);
    assert IntToDecimal(n) == ['-'] + d;
    AfterPrefix(['-'], d, t);
  }

  /** A `-` followed by a decimal numeral and a non-continuing tail parses to the negated value. */
  lemma SignedDecimal(s: string, m: nat, t: string)
    requires CannotContinueNumeral(m, t)
    requires s != [] && s[0] == '-' && s[1..] == NatToDecimal(m) + t
    ensures ParseInt(s) == Some(-(m as int))
  {
    MinusSign(s);
    MagnitudeOfDecimal(m, t);
  }

  /** After a leading `-`, the magnitude is read and negated. */
  lemma MinusSign(s: string)
    requires s != [] && s[0] == '-'
    ensures ParseInt(s) == Negate(ParseMagnitude(s[1..]))
  {
    TrimStartKeeps(s);
  }

  function Negate(m: Option<nat>): Option<int> {
    match m
    case None => None
    case Some(v) => Some(-(v as int))
  }

  lemma NonNegativeNumeralParses(m: int, t: string)
    requires m >= 0
    requires CannotContinueNumeral(m, t)
    ensures ParseInt(IntToDecimal(m) + t) == Some(m)
  {
    var input := NatToDecimal(m) + t;
    assert IntToDecimal(m) + t == input;
    assert input[0] == NatToDecimal(m)[0];
    TrimStartKeeps(input);
    MagnitudeOfDecimal(m, t);
  }

  /** A string that starts with a sign or a digit is left alone by `TrimStart`. */
  lemma TrimStartKeeps(s: string)
    requires s != [] && (s[0] == '-' || IsDigit(s[0], 10))
    ensures TrimStart(s) == s
  {
    assert !IsWhiteSpace(s[0]);
  }

  /** A decimal numeral followed by a tail that cannot continue it reads back as its value. */
  lemma MagnitudeOfDecimal(m: nat, t: string)
    requires CannotContinueNumeral(m, t)
    ensures ParseMagnitude(NatToDecimal(m) + t) == Some(m)
  {
    var d := NatToDecimal(m);
    var u := d + t;
    assert !(|u| >= 2 && u[0] == '0' && (u[1] == 'x' || u[1] == 'X')) by {
      if |u| >= 2 && u[0] == '0' {
        assert m == 0 && |d| == 1;
        assert u[1] == t[0];
      }
    }
    assert ParseMagnitude(u) == ReadDigits(u, 10);
    DigitPrefixOfDigits(d, t, 10);
    assert u[..|d|] == d;
    NumeralValue(m, 10);
    assert ReadDigits(u, 10) == Some(DigitsValue(d, 10));
  }

  /** Corollary: `parseInt` inverts the decimal numeral. */
  lemma ParseIntRoundTrip(n: int)
    ensures ParseInt(IntToDecimal(n)) == Some(n)
  {
    ParseIntReadsDecimalPrefix(n, []);
    assert IntToDecimal(n) + [] == IntToDecimal(n);
  }

  /** After `0x` or `0X`, `parseInt` reads hexadecimal digits, in either case, up to the first
      character that is not one: `parseInt("0x1F")` is 31. */
  lemma ParseIntReadsHexPrefix(x: char, h: string, t: string)
    requires x == 'x' || x == 'X'
    requires h != [] && forall i :: 0 <= i < |h| ==> IsDigit(h[i], 16)
    requires t == [] || !IsDigit(t[0], 16)
    ensures ParseInt(['0', x] + h + t) == Some(DigitsValue(h, 16))
  {
    var s := ['0', x] + h + t;
    assert ParseInt(s) == Widen(ParseMagnitude(s)) by {
      LeadingZero(x, h, t);
      UnsignedStart(s);
    }
    assert ParseMagnitude(s) == Some(DigitsValue(h, 16)) by {
      HexMagnitude(x, h, t);
    }
  }

  lemma LeadingZero(x: char, h: string, t: string)
    ensures ['0', x] + h + t != [] && (['0', x] + h + t)[0] == '0'
  {
  }

  /** Without a sign, `parseInt` reads the magnitude of the whole trimmed-free input. */
  lemma UnsignedStart(s: string)
    requires s != [] && IsDecimalDigit(s[0])
    ensures ParseInt(s) == Widen(ParseMagnitude(s))
  {
    TrimStartKeeps(s);
  }

  lemma HexMagnitude(x: char, h: string, t: string)
    requires x == 'x' || x == 'X'
    requires h != [] && forall i :: 0 <= i < |h| ==> IsDigit(h[i], 16)
    requires t == [] || !IsDigit(t[0], 16)
    ensures ParseMagnitude(['0', x] + h + t) == Some(DigitsValue(h, 16))
  {
    var s := ['0', x] + h + t;
    assert s[0] == '0' && s[1] == x;
    assert s[2..] == h + t by {
      AfterPrefix(['0', x], h, t);
    }
    DigitPrefixOfDigits(h, t, 16);
    assert (h + t)[..|h|] == h;
  }

  lemma AfterPrefix<T>(p: seq<T>, a: seq<T>, b: seq<T>)
    ensures (p + a + b)[|p|..] == a + b
  {
    assert p + a + b == p + (a + b);
  }

  /** Corollary: after `0x`, `parseInt` inverts the hexadecimal numeral of any natural number. */
  lemma ParseIntHexRoundTrip(x: char, m: nat, t: string)
    requires x == 'x' || x == 'X'
    requires t == [] || !IsDigit(t[0], 16)
    ensures ParseInt(['0', x] + NatToNumeral(m, 16) + t) == Some(m)
  {
    ParseIntReadsHexPrefix(x, NatToNumeral(m, 16), t);
    NumeralValue(m, 16);
  }

  /** A string without a decimal digit parses to NaN: `parseInt("")`, `parseInt("abc")`. */
  lemma ParseIntWithoutDigitsIsNaN(input: string)
    requires forall i :: 0 <= i < |input| ==> !IsDecimalDigit(input[i])
    ensures ParseInt(input) == None
  {
    var s := TrimStart(input);
    if s != [] && (s[0] == '-' || s[0] == '+') {
      NoDigitRunWithoutDigits(s[1..]);
    } else {
      NoDigitRunWithoutDigits(s);
    }
  }

  /** Without a leading decimal digit there is no `0x` prefix and no digit run. */
  lemma NoDigitRunWithoutDigits(u: string)
    requires u == [] || !IsDecimalDigit(u[0])
    ensures ParseMagnitude(u) == None
  {
  }

  /** Leading white space does not change what `parseInt` reads. */
  lemma ParseIntSkipsWhiteSpace(ws: string, s: string)
    requires forall i :: 0 <= i < |ws| ==> IsWhiteSpace(ws[i])
    ensures ParseInt(ws + s) == ParseInt(s)
  {
    TrimStartSkips(ws, s);
  }

  /** White space in front adds to the white-space prefix. */
  lemma {:induction false} TrimStartSkips(ws: string, s: string)
    requires forall i :: 0 <= i < |ws| ==> IsWhiteSpace(ws[i])
    ensures TrimStart(ws + s) == TrimStart(s)
  {
    LeadingWhiteSpaceOfPrefix(ws, s);
    assert (ws + s)[|ws| + LeadingWhiteSpace(s)..] == s[LeadingWhiteSpace(s)..];
  }

  lemma {:induction false} LeadingWhiteSpaceOfPrefix(ws: string, s: string)
    requires forall i :: 0 <= i < |ws| ==> IsWhiteSpace(ws[i])
    ensures LeadingWhiteSpace(ws + s) == |ws| + LeadingWhiteSpace(s)
  {
    if ws == [] {
      assert ws + s == s;
    } else {
      assert (ws + s)[1..] == ws[1..] + s;
      LeadingWhiteSpaceOfPrefix(ws[1..], s);
    }
  }
}
