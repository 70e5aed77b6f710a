/** Python's `decimal.Decimal` restricted to finite values, as the repository's
    models turn it into text: `str(d)` (what `Decimal.__str__` produces under
    the default context, whose `capitals` setting writes the exponent marker
    as `E`) and the finite-numeral part of the `Decimal(string)` constructor.
    A value is kept the way Python keeps it: a sign, a coefficient without
    leading zeros, and a power-of-ten exponent. */
module DecimalText {
  import opened Wrappers

  /** `Decimal((sign, digits, exponent))`: (-1)^sign * coefficient * 10^exponent.
      `negative` is kept apart from the coefficient so that `-0` exists, as in Python. */
  datatype Decimal = Decimal(negative: bool, coefficient: nat, exponent: int)

  predicate IsDigit(c: char)
  {
    '0' <= c <= '9'
  }

  predicate AllDigits(s: string)
  {
    forall i :: 0 <= i < |s| ==> IsDigit(s[i])
  }

  function DigitChar(d: nat): (c: char)
    requires d < 10
    ensures IsDigit(c) && c as int - '0' as int == d
  {
    (d + '0' as int) as char
  }

  /** `int(s)` for a string of ASCII digits (the empty string reads as 0). */
  function DigitsValue(s: string): nat
    requires AllDigits(s)
  {
    if s == [] then 0
    else DigitsValue(s[..|s| - 1]) * 10 + (s[|s| - 1] as int - '0' as int)
  }

  /** `str(n)` for a non-negative integer: decimal digits without leading zeros. */
  function NatText(n: nat): (s: string)
    ensures s != [] && AllDigits(s)
    ensures s[0] == '0' ==> s == "0"
    ensures DigitsValue(s) == n
  {
    if n < 10 then [DigitChar(n)]
    else
      var s := NatText(n / 10) + [DigitChar(n % 10)];
      assert s[..|s| - 1] == NatText(n / 10);
      s
  }

  /** `str(i)` for a Python int. */
  function IntText(i: int): string
  {
    (if i < 0 then "-" else "") + NatText(if i < 0 then -i else i)
  }

  /** `"%+d" % k`: the sign is always written. */
  function SignedText(k: int): string
  {
    (if k < 0 then "-" else "+") + NatText(if k < 0 then -k else k)
  }

  function Zeros(n: nat): (s: string)
    ensures |s| == n && AllDigits(s)
  {
    seq(n, _ => '0')
  }

  /** `str(d)`: plain notation when the exponent is not positive and the
      number has more than -6 digits left of the point, otherwise scientific
      notation with one digit before the point. */
  function ToText(d: Decimal): string
  {
    SignText(d.negative) + Unsigned(NatText(d.coefficient), d.exponent)
  }

  /** The text after the sign, for coefficient digits `digits`. */
  function Unsigned(digits: string, exponent: int): string
  {
    var leftDigits := exponent + |digits|;
    var dotPlace := DotPlace(exponent, leftDigits);
    Mantissa(digits, dotPlace) + ExponentPart(leftDigits, dotPlace)
  }

  /** How many coefficient digits stand left of the point in the output. */
  function DotPlace(exponent: int, leftDigits: int): int
  {
    if exponent <= 0 && leftDigits > -6 then leftDigits else 1
  }

  function SignText(negative: bool): string
  {
    if negative then "-" else ""
  }

  /** `intpart + fracpart` of `Decimal.__str__`. */
  function Mantissa(digits: string, dotPlace: int): string
  {
    if dotPlace <= 0 then "0" + "." + Zeros(-dotPlace) + digits
    else if dotPlace >= |digits| then digits + Zeros(dotPlace - |digits|)
    else digits[..dotPlace] + "." + digits[dotPlace..]
  }

  function ExponentPart(leftDigits: int, dotPlace: int): string
  {
    if leftDigits == dotPlace then "" else "E" + SignedText(leftDigits - dotPlace)
  }

  /** The length of the longest prefix of `s` made of digits. */
  function DigitRun(s: string): (n: nat)
    ensures n <= |s| && AllDigits(s[..n])
    ensures n < |s| ==> !IsDigit(s[n])
  {
    if s == [] || !IsDigit(s[0]) then 0
    else
      var n := 1 + DigitRun(s[1..]);
      assert s[..n] == [s[0]] + s[1..][..n - 1];
      n
  }

  /** The exponent after `E`: `[-+]?\d+` and nothing else. */
  function ParseExponent(s: string): Option<int>
  {
    var (negative, body) := SplitSign(s);
    if body != [] && AllDigits(body) then
      Some(if negative then -(DigitsValue(body) as int) else DigitsValue(body))
    else None
  }

  /** An optional leading `+` or `-`, and what follows it. */
  function SplitSign(s: string): (bool, string)
  {
    if |s| > 0 && (s[0] == '+' || s[0] == '-') then (s[0] == '-', s[1..]) else (false, s)
  }

  /** Integer digits, then (after a `.`) fraction digits, then the rest. */
  function SplitMantissa(body: string): (r: (string, string, string))
    ensures AllDigits(r.0) && AllDigits(r.1)
  {
    var i := DigitRun(body);
    var rest := body[i..];
    if |rest| > 0 && rest[0] == '.' then
      var afterDot := rest[1..];
      var j := DigitRun(afterDot);
      (body[..i], afterDot[..j], afterDot[j..])
    else (body[..i], [], rest)
  }

  /** What may follow the mantissa: nothing, or an exponent. */
  function ParseTail(tail: string): Option<int>
  {
    if tail == [] then Some(0)
    else if tail[0] == 'E' || tail[0] == 'e' then ParseExponent(tail[1..])
    else None
  }

  /** `Decimal(s)` for a finite numeral `[-+]?(\d+(\.\d*)?|\.\d+)([eE][-+]?\d+)?`:
      the coefficient is `int(intpart + fracpart)` and the exponent is the
      written exponent less the number of fraction digits. Anything else is
      `None` (Python raises `InvalidOperation`). */
  function Parse(s: string): Option<Decimal>
  {
    var (negative, body) := SplitSign(s);
    var (intPart, fracPart, tail) := SplitMantissa(body);
    if intPart == [] && fracPart == [] then None
    else
      assert AllDigits(intPart + fracPart) by { AllDigitsAppend(intPart, fracPart); }
      match ParseTail(tail)
      case None => None
      case Some(e) => Some(Decimal(negative, DigitsValue(intPart + fracPart), e - |fracPart|))
  }

  lemma AllDigitsAppend(a: string, b: string)
    requires AllDigits(a) && AllDigits(b)
    ensures AllDigits(a + b)
  {
    forall i | 0 <= i < |a + b| ensures IsDigit((a + b)[i]) {
      if i >= |a| { assert (a + b)[i] == b[i - |a|]; }
    }
  }

  /** The exponent part that `ToText` appends for an adjustment `k`. */
  function ExponentText(k: int): string
  {
    if k == 0 then "" else "E" + SignedText(k)
  }

  lemma {:induction false} DigitsValueZeros(n: nat)
    ensures DigitsValue(Zeros(n)) == 0
  {
    if n > 0 {
      assert Zeros(n)[..n - 1] == Zeros(n - 1);
      DigitsValueZeros(n - 1);
    }
  }

  /** Leading zeros do not change `int(s)`. */
  lemma {:induction false} DigitsValueLeadingZeros(n: nat, s: string)
    requires AllDigits(s)
    ensures AllDigits(Zeros(n) + s) && DigitsValue(Zeros(n) + s) == DigitsValue(s)
  {
    var z := Zeros(n) + s;
    assert AllDigits(z) by {
      forall i | 0 <= i < |z| ensures IsDigit(z[i]) {
        if i >= n { assert z[i] == s[i - n]; }
      }
    }
    if s == [] {
      assert z == Zeros(n);
      DigitsValueZeros(n);
    } else {
      assert z[..|z| - 1] == Zeros(n) + s[..|s| - 1];
      DigitsValueLeadingZeros(n, s[..|s| - 1]);
    }
  }

  lemma {:induction false} DigitRunAppend(a: string, b: string)
    requires AllDigits(a)
    requires b == [] || !IsDigit(b[0])
    ensures DigitRun(a + b) == |a|
  {
    if a != [] {
      assert (a + b)[1..] == a[1..] + b;
      DigitRunAppend(a[1..], b);
    }
  }

  lemma ParseExponentSigned(k: int)
    ensures ParseExponent(SignedText(k)) == Some(k)
  {
    var s := SignedText(k);
    assert s[1..] == NatText(if k < 0 then -k else k);
  }

  lemma ParseTailExponent(k: int)
    ensures ParseTail(ExponentText(k)) == Some(k)
  {
    if k != 0 {
      assert ExponentText(k)[1..] == SignedText(k);
      ParseExponentSigned(k);
    }
  }

  lemma SplitMantissaLayout(a: string, b: string, hasDot: bool, ex: string)
    requires AllDigits(a) && AllDigits(b)
    requires hasDot || b == []
    requires ex == [] || ex[0] == 'E'
    ensures SplitMantissa(a + (if hasDot then "." + b else "") + ex) == (a, b, ex)
  {
    var mid := if hasDot then "." + b else "";
    var body := a + mid + ex;
    assert body == a + (mid + ex);
    DigitRunAppend(a, mid + ex);
    assert body[..|a|] == a && body[|a|..] == mid + ex;
    if hasDot {
      assert (mid + ex)[1..] == b + ex;
      DigitRunAppend(b, ex);
      assert (b + ex)[..|b|] == b && (b + ex)[|b|..] == ex;
    } else {
      assert mid + ex == ex;
    }
  }

  lemma SplitSignText(negative: bool, body: string)
    requires body != [] && IsDigit(body[0])
    ensures SplitSign(SignText(negative) + body) == (negative, body)
  {
    var s := SignText(negative) + body;
    if negative {
      assert s[1..] == body;
    } else {
      assert s == body;
    }
  }

  lemma ParseParts(s: string, negative: bool, body: string, a: string, b: string, ex: string, k: int)
    requires a != [] && AllDigits(a + b)
    requires SplitSign(s) == (negative, body)
    requires SplitMantissa(body) == (a, b, ex)
    requires ParseTail(ex) == Some(k)
    ensures Parse(s) == Some(Decimal(negative, DigitsValue(a + b), k - |b|))
  {
  }

  /** How `SplitMantissa` cuts `body`, the text that `Mantissa` and
      `ExponentPart` write for `digits` and `exponent`: into integer digits
      `a`, fraction digits `b` and the exponent text of `k`, where `a + b`
      holds the coefficient's digits after some leading zeros. */
  ghost predicate CutsAs(body: string, k: int, digits: string, exponent: int, a: string, b: string)
    requires AllDigits(digits)
  {
    && body != [] && IsDigit(body[0])
    && a != [] && AllDigits(a) && AllDigits(b)
    && SplitMantissa(body) == (a, b, ExponentText(k))
    && AllDigits(a + b) && DigitsValue(a + b) == DigitsValue(digits)
    && k - |b| == exponent
  }

  lemma CutLeadingPoint(digits: string, exponent: int) returns (a: string, b: string)
    requires digits != [] && AllDigits(digits)
    requires DotPlace(exponent, exponent + |digits|) <= 0
    ensures CutsAs(Unsigned(digits, exponent), exponent + |digits| - DotPlace(exponent, exponent + |digits|), digits, exponent, a, b)
  {
    var leftDigits := exponent + |digits|;
    var dotPlace := DotPlace(exponent, leftDigits);
    var ex := ExponentText(leftDigits - dotPlace);
    assert ExponentPart(leftDigits, dotPlace) == ex;
    a, b := "0", Zeros(-dotPlace) + digits;
    PointZerosValue(-dotPlace, digits);
    assert Unsigned(digits, exponent) == a + ("." + b) + ex;
    SplitMantissaLayout(a, b, true, ex);
  }

  /** The digits `0.000ddd` writes are worth the coefficient's digits. */
  lemma PointZerosValue(n: nat, digits: string)
    requires AllDigits(digits)
    ensures AllDigits(Zeros(n) + digits) && AllDigits("0" + (Zeros(n) + digits))
    ensures DigitsValue("0" + (Zeros(n) + digits)) == DigitsValue(digits)
  {
    DigitsValueLeadingZeros(n, digits);
    DigitsValueLeadingZeros(n + 1, digits);
    assert "0" + (Zeros(n) + digits) == Zeros(n + 1) + digits;
  }

  lemma CutNoPoint(digits: string, exponent: int) returns (a: string, b: string)
    requires digits != [] && AllDigits(digits)
    requires DotPlace(exponent, exponent + |digits|) >= |digits|
    ensures CutsAs(Unsigned(digits, exponent), exponent + |digits| - DotPlace(exponent, exponent + |digits|), digits, exponent, a, b)
  {
    var leftDigits := exponent + |digits|;
    var dotPlace := DotPlace(exponent, leftDigits);
    var ex := ExponentText(leftDigits - dotPlace);
    assert ExponentPart(leftDigits, dotPlace) == ex;
    assert dotPlace == |digits|;
    a, b := digits, "";
    assert a + b == digits;
    assert Mantissa(digits, dotPlace) + ex == a + "" + ex;
    SplitMantissaLayout(a, b, false, ex);
  }

  lemma CutInnerPoint(digits: string, exponent: int) returns (a: string, b: string)
    requires digits != [] && AllDigits(digits)
    requires 0 < DotPlace(exponent, exponent + |digits|) < |digits|
    ensures CutsAs(Unsigned(digits, exponent), exponent + |digits| - DotPlace(exponent, exponent + |digits|), digits, exponent, a, b)
  {
    var leftDigits := exponent + |digits|;
    var dotPlace := DotPlace(exponent, leftDigits);
    var ex := ExponentText(leftDigits - dotPlace);
    assert ExponentPart(leftDigits, dotPlace) == ex;
    a, b := digits[..dotPlace], digits[dotPlace..];
    assert a + b == digits;
    assert AllDigits(b) by {
      forall i | 0 <= i < |b| ensures IsDigit(b[i]) { assert b[i] == digits[i + dotPlace]; }
    }
    assert Mantissa(digits, dotPlace) + ex == a + ("." + b) + ex;
    SplitMantissaLayout(a, b, true, ex);
  }

  /** Reading back a sign and the unsigned text of some coefficient digits. */
  lemma ParseUnsigned(negative: bool, digits: string, exponent: int)
    requires digits != [] && AllDigits(digits)
    ensures Parse(SignText(negative) + Unsigned(digits, exponent))
         == Some(Decimal(negative, DigitsValue(digits), exponent))
  {
    var dotPlace := DotPlace(exponent, exponent + |digits|);
    var a, b;
    if dotPlace <= 0 {
      a, b := CutLeadingPoint(digits, exponent);
    } else if dotPlace >= |digits| {
      a, b := CutNoPoint(digits, exponent);
    } else {
      a, b := CutInnerPoint(digits, exponent);
    }
    ParseCut(negative, Unsigned(digits, exponent), exponent + |digits| - dotPlace, digits, exponent, a, b);
  }

  /** Reading back a sign and a body that `SplitMantissa` cuts as `CutsAs`
      says. */
  lemma ParseCut(negative: bool, body: string, k: int, digits: string, exponent: int, a: string, b: string)
    requires AllDigits(digits) && CutsAs(body, k, digits, exponent, a, b)
    ensures Parse(SignText(negative) + body) == Some(Decimal(negative, DigitsValue(digits), exponent))
  {
    SplitSignText(negative, body);
    ParseTailExponent(k);
    ParseParts(SignText(negative) + body, negative, body, a, b, ExponentText(k), k);
    assert DigitsValue(a + b) == DigitsValue(digits) && k - |b| == exponent;
    assert Decimal(negative, DigitsValue(a + b), k - |b|) == Decimal(negative, DigitsValue(digits), exponent);
  }

  /** Round trip: reading back `str(d)` gives `d` exactly, with the same
      coefficient and exponent (no precision is lost or added). */
  lemma ParseToText(d: Decimal)
    ensures Parse(ToText(d)) == Some(d)
  {
    ParseUnsigned(d.negative, NatText(d.coefficient), d.exponent);
  }

  /** `str(Decimal(i)) == str(i)`: an integer and the Decimal holding it are
      normalised to the same text. */
  lemma IntTextAsDecimal(i: int)
    ensures ToText(Decimal(i < 0, if i < 0 then -i else i, 0)) == IntText(i)
  {
    var digits := NatText(if i < 0 then -i else i);
    assert digits + Zeros(0) == digits;
  }
}
