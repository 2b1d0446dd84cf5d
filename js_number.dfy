/** JavaScript number handling the core relies on, over unbounded integers and
    exact reals: powers of ten, `Math.round`, `Math.floor(Math.random() * n)`,
    `parseInt` (no radix argument), `parseFloat`, `Number()` on strings, and the
    decimal text of a non-negative integer. */
module JsNumber {

  import opened Wrappers
  import opened JsText

  function Pow10(k: nat): (p: nat)
    ensures p >= 1
  {
    if k == 0 then 1 else 10 * Pow10(k - 1)
  }

  lemma {:induction false} Pow10Add(a: nat, b: nat)
    ensures Pow10(a + b) == Pow10(a) * Pow10(b)
  {
    if a > 0 {
      Pow10Add(a - 1, b);
    }
  }

  lemma {:induction false} Pow10Monotone(a: nat, b: nat)
    requires a <= b
    ensures Pow10(a) <= Pow10(b)
  {
    if a < b {
      Pow10Monotone(a, b - 1);
    }
  }

  /** `Math.round`: the nearest integer, halves rounded up (towards +infinity). */
  function RoundHalfUp(x: real): (n: int)
    ensures n as real - 0.5 <= x < n as real + 0.5
  {
    (x + 0.5).Floor
  }

  /** `Math.floor(r * n)` for a draw `r` of `Math.random()`: uniform over `[0, n)`. */
  function RandomBelow(r: real, n: nat): (k: nat)
    requires 0.0 <= r < 1.0 && n > 0
    ensures k < n
  {
    assert 0.0 <= r * n as real < n as real by {
      assert n as real - r * n as real == (1.0 - r) * n as real;
    }
    (r * n as real).Floor
  }

  /** A draw in [0, 1) scales a positive width `w` into [0, w). */
  lemma DrawScales(r: real, w: real)
    requires 0.0 <= r < 1.0 && w > 0.0
    ensures 0.0 <= r * w < w
  {
    assert w - r * w == (1.0 - r) * w;
    ProductOfPositives(1.0 - r, w);
  }

  /** `r * w` for a draw `r`: somewhere in [0, w). */
  function Scaled(r: real, w: real): (o: real)
    requires 0.0 <= r < 1.0 && w > 0.0
    ensures 0.0 <= o < w
  {
    DrawScales(r, w);
    r * w
  }

  lemma ProductOfPositives(a: real, b: real)
    requires a > 0.0 && b > 0.0
    ensures a * b > 0.0
  {
  }

  /** Multiplying bounds by a non-negative number keeps them in order. */
  lemma ScaleBounds(b: int, lo: int, hi: int, p: int)
    requires lo <= b <= hi && p >= 0
    ensures lo * p <= b * p <= hi * p
  {
  }

  /** The value of `c` as a digit in a radix up to 36; 36 when it is none. */
  function DigitValue(c: char): (d: nat)
    ensures d <= 36
  {
    if '0' <= c <= '9' then c as int - '0' as int
    else if 'a' <= c <= 'z' then c as int - 'a' as int + 10
    else if 'A' <= c <= 'Z' then c as int - 'A' as int + 10
    else 36
  }

  predicate AllDigits(s: string, radix: nat)
  {
    forall i :: 0 <= i < |s| ==> DigitValue(s[i]) < radix
  }

  /** Length of the longest prefix of `s` made of digits of `radix`. */
  function DigitRun(s: string, radix: nat): (n: nat)
    ensures n <= |s|
  {
    if s != [] && DigitValue(s[0]) < radix then 1 + DigitRun(s[1..], radix) else 0
  }

  /** The digit run is made of digits and ends at the end of `s` or at a
      character that is no digit. */
  lemma {:induction false} DigitRunBounds(s: string, radix: nat)
    ensures AllDigits(s[..DigitRun(s, radix)], radix)
    ensures DigitRun(s, radix) < |s| ==> DigitValue(s[DigitRun(s, radix)]) >= radix
  {
    if s != [] && DigitValue(s[0]) < radix {
      DigitRunBounds(s[1..], radix);
      assert s[..DigitRun(s, radix)] == [s[0]] + s[1..][..DigitRun(s[1..], radix)];
    }
  }

  /** The value of a string of digits, most significant first. */
  function RadixValue(s: string, radix: nat): nat
  {
    if s == [] then 0 else RadixValue(s[..|s| - 1], radix) * radix + DigitValue(s[|s| - 1])
  }

  lemma {:induction false} DecimalValueBound(s: string)
    requires AllDigits(s, 10)
    ensures RadixValue(s, 10) < Pow10(|s|)
  {
    if s != [] {
      DecimalValueBound(s[..|s| - 1]);
    }
  }

  /** `parseInt(s)` with no radix: leading white space skipped, one optional
      sign, then an unsigned part; `None` (NaN) when that part is. */
  function ParseInt(s: string): Option<int>
  {
    var t := TrimStart(s);
    if |t| > 0 && t[0] == '-' then
      match ParseUnsigned(t[1..])
      case None => None
      case Some(m) => Some(-m)
    else if |t| > 0 && t[0] == '+' then ParseUnsigned(t[1..])
    else ParseUnsigned(t)
  }

  /** A `0x`/`0X` prefix selects radix 16, otherwise radix 10. */
  function ParseUnsigned(u: string): (r: Option<int>)
    ensures r.Some? ==> r.value >= 0
  {
    if |u| >= 2 && u[0] == '0' && (u[1] == 'x' || u[1] == 'X') then ParseDigits(u[2..], 16)
    else ParseDigits(u, 10)
  }

  /** The value of the longest run of digits at the start of `body`; `None`
      when the run is empty. */
  function ParseDigits(body: string, radix: nat): (r: Option<int>)
    ensures r.None? <==> DigitRun(body, radix) == 0
    ensures r.Some? ==> r.value >= 0
  {
    var n := DigitRun(body, radix);
    if n == 0 then None else Some(RadixValue(body[..n], radix))
  }

  /** A decimal run read from `body` is below `10^|body|`. */
  lemma DecimalRunBound(body: string)
    requires ParseDigits(body, 10).Some?
    ensures ParseDigits(body, 10).value < Pow10(|body|)
  {
    var n := DigitRun(body, 10);
    DigitRunBounds(body, 10);
    DecimalValueBound(body[..n]);
    Pow10Monotone(n, |body|);
  }

  /** Whatever `parseInt` makes of at most two characters is below `10^|s|`:
      two characters are too few for a hexadecimal digit after `0x`. */
  lemma ShortParseBound(s: string, v: int)
    requires |s| <= 2 && ParseInt(s) == Some(v)
    ensures v < Pow10(|s|)
  {
    if v > 0 {
      PositiveParse(s);
      var u := UnsignedPart(s);
      ShortUnsignedBound(u);
      Pow10Monotone(|u|, |s|);
    }
  }

  /** The text after the white space and the sign. */
  function UnsignedPart(s: string): (u: string)
    ensures |u| <= |s|
  {
    var t := TrimStart(s);
    if |t| > 0 && (t[0] == '-' || t[0] == '+') then t[1..] else t
  }

  /** A positive result of `parseInt` is what its unsigned part reads. */
  lemma PositiveParse(s: string)
    requires ParseInt(s).Some? && ParseInt(s).value > 0
    ensures ParseUnsigned(UnsignedPart(s)) == ParseInt(s)
  {
  }

  lemma ShortUnsignedBound(u: string)
    requires |u| <= 2 && ParseUnsigned(u).Some?
    ensures ParseUnsigned(u).value < Pow10(|u|)
  {
    assert ParseUnsigned(u) == ParseDigits(u, 10);
    DecimalRunBound(u);
  }

  function DigitChar(d: nat): char
    requires d < 10
  {
    ('0' as int + d) as char
  }

  /** The decimal text of `n`, as JavaScript's `${n}` writes a non-negative
      integer. */
  function ShowNat(n: nat): string
  {
    if n < 10 then [DigitChar(n)] else ShowNat(n / 10) + [DigitChar(n % 10)]
  }

  /** The text of `n` is a non-empty string of decimal digits whose value is `n`. */
  lemma {:induction false} ShowNatDigits(n: nat)
    ensures |ShowNat(n)| >= 1 && AllDigits(ShowNat(n), 10)
    ensures RadixValue(ShowNat(n), 10) == n
  {
    if n >= 10 {
      ShowNatDigits(n / 10);
      var s := ShowNat(n);
      assert s[..|s| - 1] == ShowNat(n / 10);
    }
  }

  /** `parseInt` reads back the text of every non-negative integer. */
  lemma ParseIntShowNat(n: nat)
    ensures ParseInt(ShowNat(n)) == Some(n)
  {
    ShowNatDigits(n);
    ParseIntOfDigits(ShowNat(n));
  }

  /** The text of a number has no white space to trim. */
  lemma ShowNatTrimmed(n: nat)
    ensures Trim(ShowNat(n)) == ShowNat(n)
  {
    ShowNatDigits(n);
    var s := ShowNat(n);
    assert DigitValue(s[0]) < 10 && DigitValue(s[|s| - 1]) < 10;
    TrimOfTrimmed(s);
  }

  /** A non-empty string of decimal digits parses to its value. */
  lemma ParseIntOfDigits(s: string)
    requires |s| >= 1 && AllDigits(s, 10)
    ensures ParseInt(s) == Some(RadixValue(s, 10) as int)
  {
    DecimalDigitChar(s[0]);
    assert TrimStart(s) == s;
    DecimalParse(s);
  }

  /** A string of decimal digits is read in radix 10, in full. */
  lemma DecimalParse(s: string)
    requires |s| >= 1 && AllDigits(s, 10)
    ensures ParseUnsigned(s) == Some(RadixValue(s, 10) as int)
  {
    if |s| >= 2 {
      DecimalDigitChar(s[1]);
    }
    DigitRunOfDigits(s, 10);
    assert s[..|s|] == s;
  }

  /** A decimal digit is none of the characters `parseInt` treats specially. */
  lemma DecimalDigitChar(c: char)
    requires DigitValue(c) < 10
    ensures '0' <= c <= '9' && !IsSpace(c)
  {
  }

  lemma {:induction false} DigitRunOfDigits(s: string, radix: nat)
    requires AllDigits(s, radix)
    ensures DigitRun(s, radix) == |s|
  {
    if s != [] {
      DigitRunOfDigits(s[1..], radix);
    }
  }

  // ---------------------------------------------------------------------
  // parseFloat and Number()

  /** `x * 10^e` for an integer exponent of either sign. */
  function Scale(x: real, e: int): real
  {
    if e >= 0 then x * Pow10(e) as real else x / Pow10(-e) as real
  }

  /** The value of a decimal literal and the number of characters it spans. */
  datatype Scan = Scan(value: real, length: nat)

  datatype Exponent = Exponent(power: int, length: nat)

  /** An exponent part `e`/`E`, optional sign, at least one digit; length 0
      when `s` does not start with a complete one. */
  function ScanExponent(s: string): (x: Exponent)
    ensures x.length <= |s|
  {
    if |s| > 0 && (s[0] == 'e' || s[0] == 'E') then
      var signed := if |s| > 1 && (s[1] == '+' || s[1] == '-') then 1 else 0;
      var k := DigitRun(s[1 + signed..], 10);
      if k == 0 then Exponent(0, 0)
      else
        var e: int := RadixValue(s[1 + signed..][..k], 10);
        Exponent(if signed == 1 && s[1] == '-' then -e else e, 1 + signed + k)
    else Exponent(0, 0)
  }

  /** The longest prefix of `s` that is a finite StrDecimalLiteral of
      ECMAScript: optional sign, digits with an optional fraction (at least
      one digit in all), optional exponent. */
  function ScanDecimal(s: string): (r: Option<Scan>)
    ensures r.Some? ==> 0 < r.value.length <= |s|
  {
    var signed := if |s| > 0 && (s[0] == '+' || s[0] == '-') then 1 else 0;
    var negative := signed == 1 && s[0] == '-';
    match ScanUnsigned(s[signed..])
    case None => None
    case Some(sc) => Some(Scan(if negative then -sc.value else sc.value, signed + sc.length))
  }

  /** The unsigned part of a decimal literal: a mantissa, then an
      optional exponent. */
  function ScanUnsigned(a: string): (r: Option<Scan>)
    ensures r.Some? ==> 0 < r.value.length <= |a|
  {
    match ScanMantissa(a)
    case None => None
    case Some(m) =>
      var x := ScanExponent(a[m.length..]);
      Some(Scan(Scale(m.value, x.power), m.length + x.length))
  }

  /** Digits with an optional fraction, at least one digit in all. */
  function ScanMantissa(a: string): (r: Option<Scan>)
    ensures r.Some? ==> 0 < r.value.length <= |a|
  {
    var i := DigitRun(a, 10);
    var dot := i < |a| && a[i] == '.';
    var f := if dot then DigitRun(a[i + 1..], 10) else 0;
    if i + f == 0 then None
    else if dot then Some(Scan(MantissaValue(a[..i], a[i + 1..][..f]), i + 1 + f))
    else Some(Scan(RadixValue(a[..i], 10) as real, i))
  }

  /** The value of `whole.fraction`. */
  function MantissaValue(whole: string, fraction: string): real
  {
    (RadixValue(whole, 10) * Pow10(|fraction|) + RadixValue(fraction, 10)) as real / Pow10(|fraction|) as real
  }

  /** A mantissa with nothing after it reads as the mantissa itself. */
  lemma ScanWithoutExponent(a: string, m: Scan)
    requires ScanMantissa(a) == Some(m) && m.length == |a|
    ensures ScanUnsigned(a) == Some(Scan(m.value, |a|))
  {
    assert ScanExponent(a[|a|..]) == Exponent(0, 0);
  }

  /** Without a sign, a decimal literal is its unsigned part. */
  lemma ScanUnsignedOnly(a: string)
    requires |a| >= 1 && a[0] != '+' && a[0] != '-'
    ensures ScanDecimal(a) == ScanUnsigned(a)
  {
    assert a[0..] == a;
  }

  /** A leading minus negates the literal after it. */
  lemma ScanNegated(a: string)
    ensures ScanDecimal("-" + a) ==
      match ScanUnsigned(a)
      case None => None
      case Some(sc) => Some(Scan(-sc.value, sc.length + 1))
  {
    assert ("-" + a)[1..] == a;
  }

  /** A literal that spans all of `s`, with no white space at either end,
      is read alike by `parseFloat` and `Number()`. */
  lemma ReadLiteral(s: string, v: real)
    requires s != [] && !IsSpace(s[0]) && !IsSpace(s[|s| - 1])
    requires ScanDecimal(s) == Some(Scan(v, |s|))
    ensures ParseFloat(s) == Some(v) && ToNumber(s) == Some(v)
  {
    DecimalLiteralAgree(s);
  }

  /** An unsigned literal that starts and ends with a digit and spans all
      of `a` is read as its value by `parseFloat` and `Number()`. */
  lemma ReadUnsigned(a: string, v: real)
    requires |a| >= 1 && DigitValue(a[0]) < 10 && DigitValue(a[|a| - 1]) < 10
    requires ScanUnsigned(a) == Some(Scan(v, |a|))
    ensures ParseFloat(a) == Some(v) && ToNumber(a) == Some(v)
  {
    DigitNotSpace(a[0]);
    DigitNotSpace(a[|a| - 1]);
    ScanUnsignedOnly(a);
    ReadLiteral(a, v);
  }

  /** The same literal after a minus sign is read as its negation. */
  lemma ReadNegated(a: string, v: real)
    requires |a| >= 1 && DigitValue(a[|a| - 1]) < 10
    requires ScanUnsigned(a) == Some(Scan(v, |a|))
    ensures ParseFloat("-" + a) == Some(-v) && ToNumber("-" + a) == Some(-v)
  {
    var s := "-" + a;
    DigitNotSpace(a[|a| - 1]);
    assert s[|s| - 1] == a[|a| - 1];
    NegatedScan(a, v);
    ReadLiteral(s, -v);
  }

  lemma NegatedScan(a: string, v: real)
    requires ScanUnsigned(a) == Some(Scan(v, |a|))
    ensures ScanDecimal("-" + a) == Some(Scan(-v, |"-" + a|))
  {
    ScanNegated(a);
  }

  /** A `0x` literal scans as the decimal literal "0": the `x` ends it. */
  lemma HexScan(body: string)
    ensures ScanDecimal("0x" + body) == Some(Scan(0.0, 1))
  {
    var s := "0x" + body;
    assert ScanMantissa(s) == Some(Scan(0.0, 1)) by {
      assert s == "0" + ("x" + body);
      DigitRunStops("0", "x" + body, 10);
      assert s[..1] == "0" && RadixValue("0", 10) == 0 by {
        assert "0"[..0] == "";
      }
    }
    assert ScanExponent(s[1..]) == Exponent(0, 0) by {
      assert s[1..][0] == 'x';
    }
    assert ScanUnsigned(s) == Some(Scan(0.0, 1));
    ScanUnsignedOnly(s);
  }

  /** `parseFloat` reads a hexadecimal literal as 0. */
  lemma ParseFloatOfHex(body: string)
    ensures ParseFloat("0x" + body) == Some(0.0)
  {
    var s := "0x" + body;
    assert TrimStart(s) == s;
    HexScan(body);
  }

  /** `Number()` reads a hexadecimal literal as its value. */
  lemma ToNumberOfHex(body: string)
    requires |body| >= 1 && AllDigits(body, 16)
    ensures ToNumber("0x" + body) == Some(RadixValue(body, 16) as real)
  {
    var s := "0x" + body;
    assert ToNumber(s) == NonDecimalLiteral(s) by {
      HexTrimmed(body);
      HexScan(body);
      LiteralPrefixOnly(s);
    }
    HexBody(body);
  }

  /** A hexadecimal literal has no white space to trim. */
  lemma HexTrimmed(body: string)
    requires |body| >= 1 && AllDigits(body, 16)
    ensures Trim("0x" + body) == "0x" + body
  {
    var s := "0x" + body;
    DigitNotSpace(body[|body| - 1]);
    assert s[|s| - 1] == body[|body| - 1];
    TrimOfTrimmed(s);
  }

  /** A trimmed string whose decimal literal stops short of its end is, for
      `Number()`, a `0b`/`0o`/`0x` literal or nothing. */
  lemma LiteralPrefixOnly(t: string)
    requires t != [] && Trim(t) == t
    requires ScanDecimal(t).Some? && ScanDecimal(t).value.length < |t|
    ensures ToNumber(t) == NonDecimalLiteral(t)
  {
  }

  lemma HexBody(body: string)
    requires |body| >= 1 && AllDigits(body, 16)
    ensures NonDecimalLiteral("0x" + body) == Some(RadixValue(body, 16) as real)
  {
    assert ("0x" + body)[2..] == body;
  }

  /** A digit of any radix is neither white space nor a sign. */
  lemma DigitNotSpace(c: char)
    requires DigitValue(c) < 36
    ensures !IsSpace(c) && c != '+' && c != '-'
  {
  }

  /** Digits, a point and more digits form one literal. */
  lemma ScanPointFraction(whole: string, fraction: string)
    requires |whole| >= 1 && AllDigits(whole, 10) && |fraction| >= 1 && AllDigits(fraction, 10)
    ensures var a := whole + "." + fraction;
      ScanUnsigned(a) == Some(Scan(MantissaValue(whole, fraction), |a|))
  {
    var a := whole + "." + fraction;
    assert a == whole + ("." + fraction);
    DigitRunStops(whole, "." + fraction, 10);
    assert a[|whole|] == '.';
    assert a[|whole| + 1..] == fraction;
    DigitRunOfDigits(fraction, 10);
    assert a[..|whole|] == whole;
    assert fraction[..|fraction|] == fraction;
    ScanWithoutExponent(a, Scan(MantissaValue(whole, fraction), |a|));
  }

  /** The digit run of `w + rest` is `w` when `rest` does not start with a
      digit. */
  lemma {:induction false} DigitRunStops(w: string, rest: string, radix: nat)
    requires AllDigits(w, radix) && (rest == [] || DigitValue(rest[0]) >= radix)
    ensures DigitRun(w + rest, radix) == |w|
  {
    if w != [] {
      assert (w + rest)[1..] == w[1..] + rest;
      DigitRunStops(w[1..], rest, radix);
    } else {
      assert w + rest == rest;
    }
  }

  /** A string of decimal digits is one literal: its whole length, its
      value. */
  lemma ScanDigits(a: string)
    requires |a| >= 1 && AllDigits(a, 10)
    ensures ScanUnsigned(a) == Some(Scan(RadixValue(a, 10) as real, |a|))
  {
    DigitRunOfDigits(a, 10);
    assert a[..|a|] == a;
    ScanWithoutExponent(a, Scan(RadixValue(a, 10) as real, |a|));
  }

  /** `parseFloat(s)`: the longest decimal literal after leading white space;
      `None` for NaN. */
  function ParseFloat(s: string): Option<real>
  {
    match ScanDecimal(TrimStart(s))
    case None => None
    case Some(sc) => Some(sc.value)
  }

  /** A `0b`, `0o` or `0x` literal (no sign), read to the end of `t`. */
  function NonDecimalLiteral(t: string): Option<real>
  {
    if |t| < 3 || t[0] != '0' then None
    else
      var radix := if t[1] in "bB" then 2 else if t[1] in "oO" then 8 else if t[1] in "xX" then 16 else 0;
      var body := t[2..];
      if radix == 0 || !AllDigits(body, radix) then None
      else Some(RadixValue(body, radix) as real)
  }

  /** `Number(s)`, the conversion `isNaN` applies to a string: white space
      around the literal is ignored, an empty or all-space string is 0, and
      anything that is not entirely one literal is `None` (NaN). */
  function ToNumber(s: string): Option<real>
  {
    var t := Trim(s);
    if t == [] then Some(0.0)
    else match ScanDecimal(t)
      case Some(sc) =>
        if sc.length == |t| then Some(sc.value) else NonDecimalLiteral(t)
      case None => NonDecimalLiteral(t)
  }

  /** For a string that is exactly one decimal literal, `Number()` and
      `parseFloat` agree. */
  lemma DecimalLiteralAgree(s: string)
    requires s != [] && !IsSpace(s[0]) && !IsSpace(s[|s| - 1])
    requires ScanDecimal(s).Some? && ScanDecimal(s).value.length == |s|
    ensures ToNumber(s) == ParseFloat(s) == Some(ScanDecimal(s).value.value)
  {
    TrimOfTrimmed(s);
  }
}
