/**
 * JavaScript number reading and writing as the backend uses it, on exact
 * decimals instead of binary floating point: `parseInt(s, 10)`, `parseInt(s)`
 * with no radix, `parseFloat(s)`, `Number(s)`, and `String(n)` for integers.
 * A number that is NaN is `None`.
 */
module Numbers {
  import opened Wrappers
  import opened Text

  /** The decimal `mantissa * 10^exp`. */
  datatype Decimal = Decimal(mantissa: int, exp: int)

  function Pow10(n: nat): (r: nat)
    ensures r >= 1
  {
    if n == 0 then 1 else 10 * Pow10(n - 1)
  }

  /** The mantissa of `d` rewritten over the smaller exponent `e`. */
  function Scaled(d: Decimal, e: int): int
    requires e <= d.exp
  {
    d.mantissa * Pow10(d.exp - e)
  }

  function MinInt(a: int, b: int): int {
    if a <= b then a else b
  }

  /** Numeric `<` on decimals: both sides brought to a common exponent. */
  predicate Less(a: Decimal, b: Decimal) {
    var e := MinInt(a.exp, b.exp);
    Scaled(a, e) < Scaled(b, e)
  }

  /** Numeric `===` on decimals (`2.50` and `2.5` are the same number). */
  predicate Same(a: Decimal, b: Decimal) {
    var e := MinInt(a.exp, b.exp);
    Scaled(a, e) == Scaled(b, e)
  }

  /** Exactly one of `a < b`, `a == b`, `b < a` holds. */
  lemma Trichotomy(a: Decimal, b: Decimal)
    ensures Less(a, b) || Same(a, b) || Less(b, a)
    ensures !(Less(a, b) && Same(a, b)) && !(Less(a, b) && Less(b, a)) && !(Same(a, b) && Less(b, a))
  {
  }

  /** Integers compare as decimals with exponent 0. */
  lemma LessIntegers(m: int, n: int)
    ensures Less(Decimal(m, 0), Decimal(n, 0)) <==> m < n
    ensures Same(Decimal(m, 0), Decimal(n, 0)) <==> m == n
  {
  }

  // ---------------------------------------------------------------------
  // scanning

  /** The end of the run of decimal digits that starts at `i`. */
  function DigitRun(s: string, i: nat): (j: nat)
    requires i <= |s|
    ensures i <= j <= |s|
    ensures AllDigits(s[i..j])
    ensures j < |s| ==> !IsDigit(s[j])
    decreases |s| - i
  {
    if i < |s| && IsDigit(s[i]) then DigitRun(s, i + 1) else i
  }

  /** A digit run followed by a non-digit (or by nothing) ends exactly there. */
  lemma {:induction false} DigitRunOf(s: string, i: nat, d: string)
    requires i + |d| <= |s| && s[i..i + |d|] == d && AllDigits(d)
    requires i + |d| == |s| || !IsDigit(s[i + |d|])
    ensures DigitRun(s, i) == i + |d|
    decreases |d|
  {
    if |d| > 0 {
      assert s[i] == d[0];
      assert s[i + 1..i + 1 + |d[1..]|] == d[1..];
      DigitRunOf(s, i + 1, d[1..]);
    }
  }

  /** Sign at position `k`: the multiplier and where the digits start. */
  function SignAt(t: string, k: nat): (r: (int, nat))
    requires k <= |t|
    ensures r.0 == 1 || r.0 == -1
    ensures k <= r.1 <= |t| && r.1 <= k + 1
  {
    if k < |t| && t[k] == '-' then (-1, k + 1)
    else if k < |t| && t[k] == '+' then (1, k + 1)
    else (1, k)
  }

  /**
   * `parseInt(s, 10)`: leading white space, an optional sign, then the longest
   * run of digits; NaN when there is no digit.
   */
  function ParseInt(s: string): (r: Option<int>)
    ensures r.None? <==>
      var t := TrimStart(s);
      var k := SignAt(t, 0).1;
      k == |t| || !IsDigit(t[k])
  {
    var t := TrimStart(s);
    var (sign, k) := SignAt(t, 0);
    var j := DigitRun(t, k);
    if j == k then None else Some(sign * DigitsValue(t[k..j]))
  }

  /** A run of digits at the very start of the text, with nothing before it, reads as its value. */
  lemma ParseIntDigits(d: string, rest: string)
    requires |d| > 0 && AllDigits(d)
    requires rest == "" || !IsDigit(rest[0])
    ensures ParseInt(d + rest) == Some(DigitsValue(d))
  {
    var s := d + rest;
    NoLeadingSpace(s);
    assert SignAt(s, 0) == (1, 0);
    assert s[0..|d|] == d;
    DigitRunOf(s, 0, d);
  }

  // ---------------------------------------------------------------------
  // radix prefixes

  /** The value of `c` as a digit of a radix up to 16, and -1 when it is none. */
  function DigitOf(c: char): (d: int)
    ensures -1 <= d < 16
    ensures IsDigit(c) ==> d == c as int - '0' as int
    ensures d >= 0 && d < 10 ==> IsDigit(c)
  {
    if '0' <= c <= '9' then c as int - '0' as int
    else if 'a' <= c <= 'f' then c as int - 'a' as int + 10
    else if 'A' <= c <= 'F' then c as int - 'A' as int + 10
    else -1
  }

  predicate IsRadixDigit(c: char, radix: nat) {
    0 <= DigitOf(c) < radix
  }

  predicate AllRadixDigits(s: string, radix: nat) {
    forall i :: 0 <= i < |s| ==> IsRadixDigit(s[i], radix)
  }

  /** The end of the run of digits of `radix` that starts at `i`. */
  function RadixRun(s: string, i: nat, radix: nat): (j: nat)
    requires i <= |s|
    ensures i <= j <= |s|
    ensures AllRadixDigits(s[i..j], radix)
    ensures j < |s| ==> !IsRadixDigit(s[j], radix)
    decreases |s| - i
  {
    if i < |s| && IsRadixDigit(s[i], radix) then RadixRun(s, i + 1, radix) else i
  }

  /** A run of digits of `radix` followed by something else (or by nothing) ends exactly there. */
  lemma {:induction false} RadixRunOf(s: string, i: nat, d: string, radix: nat)
    requires i + |d| <= |s| && s[i..i + |d|] == d && AllRadixDigits(d, radix)
    requires i + |d| == |s| || !IsRadixDigit(s[i + |d|], radix)
    ensures RadixRun(s, i, radix) == i + |d|
    decreases |d|
  {
    if |d| > 0 {
      assert s[i] == d[0];
      assert s[i + 1..i + 1 + |d[1..]|] == d[1..];
      RadixRunOf(s, i + 1, d[1..], radix);
    }
  }

  /** The value of a run of digits of `radix` (most significant first). */
  function RadixValue(s: string, radix: nat): nat
    requires AllRadixDigits(s, radix)
    decreases |s|
  {
    if |s| == 0 then 0
    else RadixValue(s[..|s| - 1], radix) * radix + DigitOf(s[|s| - 1])
  }

  /** `0x` or `0X` at `k`: the digits after it are hexadecimal. */
  predicate HexPrefixAt(t: string, k: nat) {
    k + 2 <= |t| && t[k] == '0' && (t[k + 1] == 'x' || t[k + 1] == 'X')
  }

  /**
   * `parseInt(s)` with no radix: as `parseInt(s, 10)`, except that `0x` or
   * `0X` right after the sign makes the digits that follow it hexadecimal,
   * and then it is NaN when no hexadecimal digit follows.
   */
  function ParseIntAuto(s: string): (r: Option<int>)
    ensures var t := TrimStart(s);
      var k := SignAt(t, 0).1;
      if HexPrefixAt(t, k) then (r.None? <==> k + 2 == |t| || !IsRadixDigit(t[k + 2], 16))
      else r == ParseInt(s)
  {
    var t := TrimStart(s);
    var (sign, k) := SignAt(t, 0);
    if HexPrefixAt(t, k) then
      var j := RadixRun(t, k + 2, 16);
      RadixRunEmpty(t, k + 2, 16);
      if j == k + 2 then None else Some(sign * RadixValue(t[k + 2..j], 16))
    else ParseInt(s)
  }

  /** The run is empty exactly when no digit of the radix stands at its start. */
  lemma RadixRunEmpty(s: string, i: nat, radix: nat)
    requires i <= |s|
    ensures RadixRun(s, i, radix) == i <==> i == |s| || !IsRadixDigit(s[i], radix)
  {
  }

  /** Decimal digits alone read the same with and without the radix. */
  lemma ParseIntAutoDigits(d: string)
    requires |d| > 0 && AllDigits(d)
    ensures ParseIntAuto(d) == ParseInt(d) == Some(DigitsValue(d))
  {
    DigitsNotHex(d);
    AutoIsDecimal(d);
    ParseIntDigits(d, "");
    assert d + "" == d;
  }

  /** Decimal digits alone carry no `0x` prefix. */
  lemma DigitsNotHex(d: string)
    requires |d| > 0 && AllDigits(d)
    ensures !HexPrefixAt(TrimStart(d), SignAt(TrimStart(d), 0).1)
  {
    NoLeadingSpace(d);
    assert SignAt(d, 0) == (1, 0);
    if |d| >= 2 {
      assert IsDigit(d[1]);
    }
  }

  /** Without a `0x` after the sign, the radix-less reading is the decimal one. */
  lemma AutoIsDecimal(s: string)
    requires !HexPrefixAt(TrimStart(s), SignAt(TrimStart(s), 0).1)
    ensures ParseIntAuto(s) == ParseInt(s)
  {
  }

  /** `0x` followed by hexadecimal digits and then something else reads as those digits in base 16. */
  lemma ParseIntHex(h: string, rest: string)
    requires |h| > 0 && AllRadixDigits(h, 16)
    requires rest == "" || !IsRadixDigit(rest[0], 16)
    ensures ParseIntAuto("0x" + h + rest) == Some(RadixValue(h, 16))
  {
    var s := "0x" + h + rest;
    NoLeadingSpace(s);
    assert s[1] == 'x' && s[2..2 + |h|] == h;
    if 2 + |h| < |s| {
      assert s[2 + |h|] == rest[0];
    }
    RadixRunOf(s, 2, h, 16);
    ParseIntAutoHexAt(s);
  }

  /** Text that starts with `0x` is read in base 16 from its third character. */
  lemma ParseIntAutoHexAt(s: string)
    requires TrimStart(s) == s && |s| >= 2 && s[0] == '0' && s[1] == 'x'
    requires RadixRun(s, 2, 16) > 2
    ensures ParseIntAuto(s) == Some(RadixValue(s[2..RadixRun(s, 2, 16)], 16))
  {
    assert SignAt(s, 0) == (1, 0);
    assert HexPrefixAt(s, 0);
  }


  /** With no radix "0x10" is 16, where `parseInt(s, 10)` stops at the `x` and reads 0. */
  lemma HexTen()
    ensures ParseIntAuto("0x10") == Some(16)
    ensures ParseInt("0x10") == Some(0)
  {
    ParseIntHex("10", "");
    assert "0x" + "10" + "" == "0x10";
    HexTenValue();
    ZeroThenX("0x10");
  }

  lemma HexTenValue()
    ensures RadixValue("10", 16) == 16
  {
    assert "10"[..1] == "1";
    assert "1"[..0] == "";
  }

  /** With no radix "0x" alone is NaN, where `parseInt(s, 10)` reads 0. */
  lemma EmptyHex()
    ensures ParseIntAuto("0x") == None
    ensures ParseInt("0x") == Some(0)
  {
    var t := "0x";
    assert TrimStart(t) == t;
    assert SignAt(t, 0) == (1, 0);
    assert HexPrefixAt(t, 0);
    ZeroThenX(t);
  }

  /** Base 10 stops at the `x` after a leading "0". */
  lemma ZeroThenX(s: string)
    requires |s| >= 2 && s[0] == '0' && s[1] == 'x'
    ensures ParseInt(s) == Some(0)
  {
    ParseIntDigits("0", s[1..]);
    assert s == "0" + s[1..];
    assert DigitsValue("0") == 0;
  }

  /** A `0x`, `0o` or `0b` prefix (either case) starting the text: its radix; 0 when there is none. */
  function PrefixRadix(t: string): (radix: nat)
    ensures radix == 0 || radix == 2 || radix == 8 || radix == 16
    ensures radix != 0 ==> |t| >= 2 && t[0] == '0'
  {
    if |t| >= 2 && t[0] == '0' then
      if t[1] == 'x' || t[1] == 'X' then 16
      else if t[1] == 'o' || t[1] == 'O' then 8
      else if t[1] == 'b' || t[1] == 'B' then 2
      else 0
    else 0
  }

  /** Text that starts with a digit has no leading white space to trim. */
  lemma NoLeadingSpace(s: string)
    requires |s| > 0 && IsDigit(s[0])
    ensures TrimStart(s) == s
  {
  }

  /**
   * The unsigned decimal literal that starts at `k`: digits, an optional `.`
   * with optional digits, at least one digit in all, then an optional
   * exponent (`e` or `E`, an optional sign, at least one digit; an exponent
   * without digits is not part of the literal). The value and the end.
   */
  function ScanDecimal(t: string, k: nat): (r: Option<(Decimal, nat)>)
    requires k <= |t|
    ensures r.Some? ==> k < r.value.1 <= |t|
  {
    var j1 := DigitRun(t, k);
    var hasDot := j1 < |t| && t[j1] == '.';
    var j2 := if hasDot then DigitRun(t, j1 + 1) else j1;
    var frac := if hasDot then t[j1 + 1..j2] else "";
    if j1 == k && |frac| == 0 then None
    else
      var m := DigitsValue(t[k..j1] + frac);
      var e0 := if hasDot then j2 else j1;
      var expo := ScanExponent(t, e0);
      Some((Decimal(m, expo.0 - |frac|), expo.1))
  }

  /** An exponent part at `e`, as (value, end); (0, e) when there is none. */
  function ScanExponent(t: string, e: nat): (r: (int, nat))
    requires e <= |t|
    ensures e <= r.1 <= |t|
    ensures r.1 == e ==> r.0 == 0
  {
    if e < |t| && (t[e] == 'e' || t[e] == 'E') then
      var (sign, k) := SignAt(t, e + 1);
      var j := DigitRun(t, k);
      if j == k then (0, e) else (sign * DigitsValue(t[k..j]), j)
    else (0, e)
  }

  function Negate(d: Decimal, sign: int): Decimal {
    if sign < 0 then Decimal(-d.mantissa, d.exp) else d
  }

  /** `parseFloat(s)`: the longest decimal literal after leading white space and a sign; NaN if none. */
  function ParseFloat(s: string): Option<Decimal> {
    var t := TrimStart(s);
    var (sign, k) := SignAt(t, 0);
    match ScanDecimal(t, k)
    case None => None
    case Some((d, _)) => Some(Negate(d, sign))
  }

  /**
   * `parseFloat(a + "." + f + rest)` for digit strings `a` (non-empty) and `f`
   * and a `rest` that cannot continue the literal: `a` is the integer part and
   * `f` the fraction.
   */
  lemma ParseFloatDigits(a: string, f: string, rest: string)
    requires |a| > 0 && AllDigits(a) && AllDigits(f)
    requires rest == "" || (!IsDigit(rest[0]) && rest[0] != 'e' && rest[0] != 'E')
    ensures ParseFloat(a + "." + f + rest) == Some(Decimal(DigitsValue(a + f), -|f|))
  {
    var s := a + "." + f + rest;
    var j2 := |a| + 1 + |f|;
    NoLeadingSpace(s);
    assert SignAt(s, 0) == (1, 0);
    assert s[0..|a|] == a;
    assert s[|a|] == '.';
    assert s[|a| + 1..j2] == f;
    if j2 < |s| {
      assert s[j2] == rest[0];
    }
    ScanDotted(s, |a|, j2);
    assert s[0..|a|] + s[|a| + 1..j2] == a + f;
    ParseFloatFrom(s);
  }

  /** Text with neither leading white space nor a sign is read from its first character. */
  lemma ParseFloatFrom(s: string)
    requires TrimStart(s) == s && SignAt(s, 0) == (1, 0)
    requires ScanDecimal(s, 0).Some?
    ensures ParseFloat(s) == Some(ScanDecimal(s, 0).value.0)
  {
  }

  /** Digits up to `j1`, a dot, digits up to `j2`, then something that cannot continue the literal. */
  lemma ScanDotted(s: string, j1: nat, j2: nat)
    requires 0 < j1 < j2 <= |s| && s[j1] == '.'
    requires AllDigits(s[0..j1]) && AllDigits(s[j1 + 1..j2])
    requires j2 == |s| || (!IsDigit(s[j2]) && s[j2] != 'e' && s[j2] != 'E')
    ensures ScanDecimal(s, 0) == Some((Decimal(DigitsValue(s[0..j1] + s[j1 + 1..j2]), -(j2 - j1 - 1)), j2))
  {
    DigitRunOf(s, 0, s[0..j1]);
    DigitRunOf(s, j1 + 1, s[j1 + 1..j2]);
    NoExponent(s, j2);
    ScanWithDot(s, 0, j1, j2);
  }

  /** `ScanDecimal` on digits, a dot and digits with no exponent after them. */
  lemma ScanWithDot(t: string, k: nat, j1: nat, j2: nat)
    requires k < j1 < j2 <= |t| && t[j1] == '.'
    requires DigitRun(t, k) == j1 && DigitRun(t, j1 + 1) == j2 && ScanExponent(t, j2) == (0, j2)
    ensures ScanDecimal(t, k) == Some((Decimal(DigitsValue(t[k..j1] + t[j1 + 1..j2]), -(j2 - j1 - 1)), j2))
  {
  }

  /** Where no `e` or `E` follows, there is no exponent part. */
  lemma NoExponent(t: string, e: nat)
    requires e <= |t|
    requires e == |t| || (t[e] != 'e' && t[e] != 'E')
    ensures ScanExponent(t, e) == (0, e)
  {
  }

  /**
   * `Number(s)`: the whole text, less surrounding white space, must be a
   * decimal literal with an optional sign, or a `0x`, `0o` or `0b` literal
   * without a sign; empty or blank text is 0.
   */
  function NumberOf(s: string): (r: Option<Decimal>)
    ensures Trim(s) == "" ==> r == Some(Decimal(0, 0))
  {
    var t := Trim(s);
    if t == "" then Some(Decimal(0, 0))
    else if PrefixRadix(t) != 0 then RadixLiteral(t[2..], PrefixRadix(t))
    else DecimalLiteral(t)
  }

  /** The digits after a radix prefix: one or more digits of that radix and nothing else, or NaN. */
  function RadixLiteral(digits: string, radix: nat): Option<Decimal> {
    if |digits| > 0 && AllRadixDigits(digits, radix) then Some(Decimal(RadixValue(digits, radix), 0)) else None
  }

  /**
   * After a `0x`, `0o` or `0b` prefix, `Number(s)` is a number exactly when
   * digits of that radix, and nothing else, follow, and then it is their value.
   */
  lemma NumberOfPrefixed(s: string)
    requires PrefixRadix(Trim(s)) != 0
    ensures var t := Trim(s); var radix := PrefixRadix(t);
      (NumberOf(s).Some? <==> |t| > 2 && AllRadixDigits(t[2..], radix))
      && (NumberOf(s).Some? ==> NumberOf(s).value == Decimal(RadixValue(t[2..], radix), 0))
  {
  }

  /** The whole of `t` as a decimal literal with an optional sign; NaN when `t` is not one. */
  function DecimalLiteral(t: string): Option<Decimal> {
    var (sign, k) := SignAt(t, 0);
    match ScanDecimal(t, k)
    case None => None
    case Some((d, end)) => if end == |t| then Some(Negate(d, sign)) else None
  }

  /**
   * Text whose first character cannot start a number (not white space, a
   * digit, a sign or a dot) and whose last is not white space is NaN.
   */
  lemma NotANumber(s: string)
    requires |s| > 0 && !IsSpace(s[0]) && !IsDigit(s[0]) && s[0] != '+' && s[0] != '-' && s[0] != '.'
    requires !IsSpace(s[|s| - 1])
    ensures NumberOf(s).None?
  {
    assert TrimStart(s) == s;
    assert TrimEnd(s) == s;
    assert PrefixRadix(s) == 0;
    assert SignAt(s, 0) == (1, 0);
    assert DigitRun(s, 0) == 0;
    assert DecimalLiteral(s).None?;
  }

  /** A string of digits is the number it spells. */
  lemma NumberOfDigits(d: string)
    requires |d| > 0 && AllDigits(d)
    ensures NumberOf(d) == Some(Decimal(DigitsValue(d), 0))
  {
    NoLeadingSpace(d);
    NoTrailingSpace(d);
    assert Trim(d) == d;
    assert PrefixRadix(d) == 0 by {
      if |d| >= 2 {
        assert IsDigit(d[1]);
      }
    }
    NumberOfUnprefixed(d);
    DecimalDigits(d);
  }

  /** Text with no radix prefix is read as a decimal literal. */
  lemma NumberOfUnprefixed(s: string)
    requires Trim(s) != "" && PrefixRadix(Trim(s)) == 0
    ensures NumberOf(s) == DecimalLiteral(Trim(s))
  {
  }

  lemma DecimalDigits(d: string)
    requires |d| > 0 && AllDigits(d)
    ensures DecimalLiteral(d) == Some(Decimal(DigitsValue(d), 0))
  {
    assert SignAt(d, 0) == (1, 0);
    assert d[0..|d|] == d;
    DigitRunOf(d, 0, d);
    assert ScanExponent(d, |d|) == (0, |d|);
    assert d[0..|d|] + "" == d;
    assert ScanDecimal(d, 0) == Some((Decimal(DigitsValue(d), 0), |d|));
    assert DecimalLiteral(d) == Some(Decimal(DigitsValue(d), 0));
  }

  /** `Number("0x10")` is 16, where a decimal literal would stop at the `x`, and `Number("0x")` is NaN. */
  lemma NumberOfHex()
    ensures NumberOf("0x10") == Some(Decimal(16, 0))
    ensures NumberOf("0x") == None
  {
    NumberOfHexDigits("10");
    assert "0x" + "10" == "0x10";
    HexTenValue();
    assert PrefixRadix("0x") == 16;
    BarePrefix("0x");
  }

  /** A radix prefix with no digits after it is NaN. */
  lemma BarePrefix(t: string)
    requires |t| == 2 && PrefixRadix(t) != 0
    ensures NumberOf(t) == None
  {
    NoSurroundingSpace(t);
    NumberOfPrefixed(t);
  }

  /** `0x` followed by hexadecimal digits alone is their value in base 16. */
  lemma NumberOfHexDigits(h: string)
    requires |h| > 0 && AllRadixDigits(h, 16)
    ensures NumberOf("0x" + h) == Some(Decimal(RadixValue(h, 16), 0))
  {
    var t := "0x" + h;
    assert t[0] == '0' && t[1] == 'x' && t[2..] == h;
    assert t[|t| - 1] == h[|h| - 1] && IsRadixDigit(h[|h| - 1], 16);
    NoSurroundingSpace(t);
    NumberOfPrefixed(t);
  }

  /** Text that neither starts nor ends with white space is its own trim. */
  lemma NoSurroundingSpace(s: string)
    requires |s| > 0 && !IsSpace(s[0]) && !IsSpace(s[|s| - 1])
    ensures Trim(s) == s
  {
    assert TrimStart(s) == s;
  }

  /** Text that ends with a digit has no trailing white space to trim. */
  lemma NoTrailingSpace(s: string)
    requires |s| > 0 && IsDigit(s[|s| - 1])
    ensures TrimEnd(s) == s
  {
  }

  // ---------------------------------------------------------------------
  // rendering

  /** `String(i)` for an integer. */
  function IntText(i: int): (s: string)
    ensures |s| >= 1
    ensures i >= 0 ==> s == NatText(i)
    ensures i < 0 ==> s == "-" + NatText(-i)
  {
    if i < 0 then "-" + NatText(-i) else NatText(i)
  }

  /** Different integers render differently. */
  lemma IntTextInjective(i: int, j: int)
    requires IntText(i) == IntText(j)
    ensures i == j
  {
    assert IntText(i)[0] == '-' <==> i < 0;
    assert IntText(j)[0] == '-' <==> j < 0;
    if i >= 0 {
      NatTextInjective(i, j);
    } else {
      assert IntText(i)[1..] == NatText(-i);
      assert IntText(j)[1..] == NatText(-j);
      NatTextInjective(-i, -j);
    }
  }

  /** A template-literal rendering of an integer that may be NaN. */
  function MaybeIntText(n: Option<int>): string {
    match n
    case None => "NaN"
    case Some(i) => IntText(i)
  }
}
