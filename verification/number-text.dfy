/**
 How numbers are written and read: the shortest decimal text of a number (with an exponent for very large and very small
 ones), the unparser's expansion of the exponent, and the parser's reading of a plain decimal.
 */
module NumberText {
  import opened Numbers
  import opened Wrappers

  // ---- digits -------------------------------------------------------------------------------------------------

  const DIGITS := "0123456789"

  predicate IsDigit(c: char) {
    '0' <= c <= '9'
  }

  function DigitOf(c: char): (d: int)
    requires IsDigit(c)
    ensures 0 <= d < 10
  {
    c as int - '0' as int
  }

  predicate AllDigits(s: string) {
    forall i :: 0 <= i < |s| ==> IsDigit(s[i])
  }

  function Digits(n: nat): (s: string)
    ensures |s| > 0 && AllDigits(s)
  {
    if n < 10 then [DIGITS[n]] else Digits(n / 10) + [DIGITS[n % 10]]
  }

  function ValueOf(s: string): nat
    requires AllDigits(s)
  {
    if s == "" then 0 else 10 * ValueOf(s[..|s| - 1]) + DigitOf(s[|s| - 1])
  }

  function Zeros(n: nat): (s: string)
    ensures |s| == n && AllDigits(s)
  {
    if n == 0 then "" else Zeros(n - 1) + "0"
  }

  lemma {:induction false} ValueOfDigits(n: nat)
    ensures ValueOf(Digits(n)) == n
  {
    var s := Digits(n);
    if n >= 10 {
      ValueOfDigits(n / 10);
      assert s[..|s| - 1] == Digits(n / 10);
    } else {
      assert s[..0] == "";
    }
  }

  lemma {:induction false} ValueOfTrailingZeros(s: string, z: nat)
    requires AllDigits(s)
    ensures AllDigits(s + Zeros(z)) && ValueOf(s + Zeros(z)) == ValueOf(s) * Pow10(z)
  {
    var t := s + Zeros(z);
    if z == 0 {
      assert t == s;
    } else {
      ValueOfTrailingZeros(s, z - 1);
      assert t[..|t| - 1] == s + Zeros(z - 1);
      assert 10 * (ValueOf(s) * Pow10(z - 1)) == ValueOf(s) * (10 * Pow10(z - 1));
    }
  }

  lemma {:induction false} ValueOfLeadingZeros(z: nat, s: string)
    requires AllDigits(s)
    ensures AllDigits(Zeros(z) + s) && ValueOf(Zeros(z) + s) == ValueOf(s)
    decreases z + |s|
  {
    var t := Zeros(z) + s;
    if s == "" {
      assert t == Zeros(z);
      if z > 0 {
        ValueOfLeadingZeros(z - 1, "");
        assert Zeros(z - 1) + "" == Zeros(z - 1) == t[..|t| - 1];
      }
    } else {
      ValueOfLeadingZeros(z, s[..|s| - 1]);
      assert t[..|t| - 1] == Zeros(z) + s[..|s| - 1];
    }
  }

  // ---- writing ------------------------------------------------------------------------------------------------

  /** The digits with the decimal point after position `point`, which may lie outside them. */
  function Layout(digits: string, point: int): string
    requires |digits| > 0
  {
    if point <= 0 then "0." + Zeros(-point) + digits
    else if point >= |digits| then digits + Zeros(point - |digits|)
    else digits[..point] + "." + digits[point..]
  }

  /** The shortest text of a non-negative number; an exponent outside 10^-6 .. 10^21. */
  function Magnitude(n: Number): string
    requires n.m >= 0
  {
    var s := Digits(n.m);
    var point := |s| + n.e;
    if n.m == 0 then "0"
    else if |s| <= point <= 21 then s + Zeros(point - |s|)
    else if 0 < point <= 21 then s[..point] + "." + s[point..]
    else if -6 < point <= 0 then "0." + Zeros(-point) + s
    else [s[0]] + (if |s| == 1 then "" else "." + s[1..]) + "e" + Signed(point - 1)
  }

  function Signed(x: int): string {
    if x < 0 then "-" + Digits(-x) else "+" + Digits(x)
  }

  function Negate(n: Number): (r: Number)
    ensures r.m == -n.m && r.e == n.e
  {
    Decimal(-n.m, n.e)
  }

  /** String(n). */
  function Shortest(n: Number): string {
    if n.m < 0 then "-" + Magnitude(Negate(n)) else Magnitude(n)
  }

  // ---- expanding the exponent ---------------------------------------------------------------------------------

  datatype ExponentParts = ExponentParts(sign: string, whole: string, fraction: string, exponent: int)

  /** The position of the first c in s, or |s|. */
  function IndexOf(s: string, c: char): (i: nat)
    ensures i <= |s|
    ensures forall j :: 0 <= j < i ==> s[j] != c
    ensures i < |s| ==> s[i] == c
  {
    if s == "" || s[0] == c then 0 else 1 + IndexOf(s[1..], c)
  }

  function ReadSigned(t: string): Option<int> {
    var sign := if t != "" && (t[0] == '+' || t[0] == '-') then 1 else 0;
    var digits := t[sign..];
    if digits == "" || !AllDigits(digits) then None
    else Some(if t[0] == '-' then 0 - ValueOf(digits) else ValueOf(digits))
  }

  /** The exponent pattern: optional minus, digits, optional fraction, e, optionally signed digits. */
  function MatchExponent(text: string): Option<ExponentParts> {
    var sign := if text != "" && text[0] == '-' then "-" else "";
    var rest := text[|sign|..];
    var at := IndexOf(rest, 'e');
    if at == |rest| then None
    else
      var mantissa, exponent := rest[..at], ReadSigned(rest[at + 1..]);
      var dot := IndexOf(mantissa, '.');
      var whole := mantissa[..dot];
      var fraction := if dot == |mantissa| then "" else mantissa[dot + 1..];
      if whole == "" || !AllDigits(whole) || !AllDigits(fraction) || exponent.None?
         || (dot < |mantissa| && fraction == "") then None
      else Some(ExponentParts(sign, whole, fraction, exponent.value))
  }

  /** The unparser's number text: exponent forms are expanded digit by digit. */
  function Expanded(text: string): string {
    match MatchExponent(text)
    case None => text
    case Some(p) => p.sign + Layout(p.whole + p.fraction, |p.whole| + p.exponent)
  }

  // ---- reading ------------------------------------------------------------------------------------------------

  function Normalize(m: nat, e: int): (n: Number)
    ensures n.m >= 0
  {
    if m == 0 then Decimal(0, 0)
    else if m % 10 == 0 then Normalize(m / 10, e + 1)
    else Decimal(m, e)
  }

  /** Number(text) for the texts the lexer calls numbers; a second point makes the text no number at all. */
  function ReadDecimal(text: string): (r: Option<Number>)
    ensures r.Some? ==> r.value.m >= 0
  {
    var dot := IndexOf(text, '.');
    var whole := text[..dot];
    if whole == "" || !AllDigits(whole) then None
    else if dot == |text| then Some(Normalize(ValueOf(whole), 0))
    else
      var fraction := text[dot + 1..];
      if fraction == "" || !AllDigits(fraction) then None
      else Some(Normalize(ValueOf(whole + fraction), -|fraction|))
  }

  // ---- the round trip -----------------------------------------------------------------------------------------

  lemma {:induction false} NormalizeShifted(m: int, z: nat, e: int)
    requires m > 0 && m % 10 != 0
    ensures m * Pow10(z) >= 0 && Normalize(m * Pow10(z), e) == Decimal(m, e + z)
  {
    if z == 0 {
      assert m * Pow10(0) == m;
    } else {
      var p := Pow10(z - 1);
      NormalizeShifted(m, z - 1, e + 1);
      assert m * Pow10(z) == 10 * (m * p);
      assert m * p >= 1 by { ProductIsPositive(m, p); }
      assert (10 * (m * p)) / 10 == m * p;
    }
  }

  lemma IndexOfFirst(a: string, c: char, b: string)
    requires forall j :: 0 <= j < |a| ==> a[j] != c
    ensures IndexOf(a + [c] + b, c) == |a|
  {
    var s := a + [c] + b;
    assert s[|a|] == c;
    assert forall j :: 0 <= j < |a| ==> s[j] == a[j];
  }

  lemma IndexOfAbsent(a: string, c: char)
    requires forall j :: 0 <= j < |a| ==> a[j] != c
    ensures IndexOf(a, c) == |a|
  {
  }

  lemma ReadFraction(a: string, b: string)
    requires a != "" && b != "" && AllDigits(a) && AllDigits(b)
    ensures ReadDecimal(a + "." + b) == Some(Normalize(ValueOf(a + b), -|b|))
  {
    var t := a + "." + b;
    IndexOfFirst(a, '.', b);
    assert t == a + ['.'] + b;
    assert t[..|a|] == a && t[|a| + 1..] == b;
  }

  lemma ReadWhole(a: string)
    requires a != "" && AllDigits(a)
    ensures ReadDecimal(a) == Some(Normalize(ValueOf(a), 0))
  {
    IndexOfAbsent(a, '.');
    assert a[..|a|] == a;
  }

  lemma NormalizeNormal(m: int, e: int)
    requires m > 0 && m % 10 != 0
    ensures Normalize(m, e) == Decimal(m, e)
  {
  }

  lemma PointFirst(zeros: string, s: string)
    ensures "0." + zeros + s == "0" + "." + (zeros + s)
  {
  }

  lemma LeadingZero(s: string)
    requires AllDigits(s)
    ensures AllDigits("0") && AllDigits("0" + s) && ValueOf("0" + s) == ValueOf(s)
  {
    ValueOfLeadingZeros(1, s);
    assert Zeros(1) == Zeros(0) + "0" == "0";
  }

  lemma ReadLayoutBefore(s: string, m: int, e: int)
    requires s != "" && AllDigits(s) && ValueOf(s) == m > 0 && m % 10 != 0 && |s| + e <= 0
    ensures ReadDecimal(Layout(s, |s| + e)) == Some(Decimal(m, e))
  {
    hide ReadDecimal, ValueOf, Zeros, Pow10, AllDigits, Normalize;
    var z := Zeros(-(|s| + e)) + s;
    NormalizeNormal(m, e);
    ValueOfLeadingZeros(-(|s| + e), s);
    LeadingZero(z);
    ReadFraction("0", z);
    PointFirst(Zeros(-(|s| + e)), s);
    assert |z| == -e;
  }

  lemma ReadLayoutAfter(s: string, m: int, e: int)
    requires s != "" && AllDigits(s) && ValueOf(s) == m > 0 && m % 10 != 0 && e >= 0
    ensures ReadDecimal(Layout(s, |s| + e)) == Some(Decimal(m, e))
  {
    hide ReadDecimal, ValueOf, Zeros, Pow10;
    ValueOfTrailingZeros(s, e);
    ReadWhole(s + Zeros(e));
    NormalizeShifted(m, e, 0);
  }

  lemma ReadLayoutWithin(s: string, m: int, e: int)
    requires s != "" && AllDigits(s) && ValueOf(s) == m > 0 && m % 10 != 0 && -|s| < e < 0
    ensures ReadDecimal(Layout(s, |s| + e)) == Some(Decimal(m, e))
  {
    hide ReadDecimal, ValueOf;
    var point := |s| + e;
    ReadFraction(s[..point], s[point..]);
    assert s[..point] + s[point..] == s;
  }

  /** Reading laid-out digits gives back exactly the decimal, wherever the point fell. */
  lemma ReadLayout(n: Number)
    requires n.m > 0
    ensures ReadDecimal(Layout(Digits(n.m), |Digits(n.m)| + n.e)) == Some(n)
  {
    hide Layout, ReadDecimal, ValueOf, Digits;
    var s := Digits(n.m);
    ValueOfDigits(n.m);
    if |s| + n.e <= 0 {
      ReadLayoutBefore(s, n.m, n.e);
    } else if n.e >= 0 {
      ReadLayoutAfter(s, n.m, n.e);
    } else {
      ReadLayoutWithin(s, n.m, n.e);
    }
  }

  lemma ReadSignedText(x: int)
    ensures ReadSigned(Signed(x)) == Some(x)
  {
    hide ValueOf, Digits;
    var d := Digits(if x < 0 then -x else x);
    ValueOfDigits(if x < 0 then -x else x);
    assert Signed(x)[1..] == d;
  }

  lemma PlainDoesNotMatch(text: string)
    requires forall j :: 0 <= j < |text| ==> text[j] != 'e'
    ensures Expanded(text) == text
  {
    var sign := if text != "" && text[0] == '-' then "-" else "";
    IndexOfAbsent(text[|sign|..], 'e');
  }

  /** The mantissa of an exponent form: the first digit, then the others after a point. */
  function Mantissa(s: string): (t: string)
    requires s != "" && AllDigits(s)
    ensures forall j :: 0 <= j < |t| ==> t[j] != 'e'
    ensures t != "" && t[0] != '-'
  {
    [s[0]] + (if |s| == 1 then "" else "." + s[1..])
  }

  lemma MantissaSplits(s: string)
    requires s != "" && AllDigits(s)
    ensures var t := Mantissa(s); var dot := IndexOf(t, '.');
            t[..dot] == [s[0]]
            && (if dot == |t| then s[1..] == "" else t[dot + 1..] == s[1..] != "")
  {
    if |s| == 1 {
      IndexOfAbsent(Mantissa(s), '.');
      assert Mantissa(s)[..1] == [s[0]];
    } else {
      IndexOfFirst([s[0]], '.', s[1..]);
      assert Mantissa(s) == [s[0]] + ['.'] + s[1..];
      assert Mantissa(s)[..1] == [s[0]] && Mantissa(s)[2..] == s[1..];
    }
  }

  lemma ExponentMatches(sign: string, s: string, x: int)
    requires sign == "" || sign == "-"
    requires s != "" && AllDigits(s)
    ensures MatchExponent(sign + (Mantissa(s) + ['e'] + Signed(x))) == Some(ExponentParts(sign, [s[0]], s[1..], x))
  {
    hide Mantissa, ReadSigned, Signed, IndexOf;
    var rest := Mantissa(s) + ['e'] + Signed(x);
    var text := sign + rest;
    assert text[0] == '-' <==> sign == "-";
    assert text[|sign|..] == rest;
    IndexOfFirst(Mantissa(s), 'e', Signed(x));
    assert rest[..|Mantissa(s)|] == Mantissa(s) && rest[|Mantissa(s)| + 1..] == Signed(x);
    ReadSignedText(x);
    MantissaSplits(s);
  }

  lemma PlainMagnitude(n: Number)
    requires n.m > 0 && -6 < |Digits(n.m)| + n.e <= 21
    ensures Magnitude(n) == Layout(Digits(n.m), |Digits(n.m)| + n.e)
    ensures forall j :: 0 <= j < |Magnitude(n)| ==> Magnitude(n)[j] != 'e'
  {
    hide Digits, Zeros;
  }

  lemma MagnitudeExpands(sign: string, n: Number)
    requires sign == "" || sign == "-"
    requires n.m > 0
    ensures Expanded(sign + Magnitude(n)) == sign + Layout(Digits(n.m), |Digits(n.m)| + n.e)
  {
    hide Layout, Digits, MatchExponent;
    var s := Digits(n.m);
    var point := |s| + n.e;
    if -6 < point <= 21 {
      PlainMagnitude(n);
      PlainDoesNotMatch(sign + Magnitude(n));
    } else {
      ExponentMatches(sign, s, point - 1);
      assert Magnitude(n) == Mantissa(s) + ['e'] + Signed(point - 1);
      assert [s[0]] + s[1..] == s;
    }
  }

  /** What the unparser writes for a number: a minus for a negative one, then its digits laid out. */
  function Unparsed(n: Number): string {
    Expanded(Shortest(n))
  }

  /** Exponent forms expand to exactly the same decimal value; no exponent is left for the lexer to trip over. */
  lemma UnparsedReadsBack(n: Number)
    ensures n.m >= 0 ==> ReadDecimal(Unparsed(n)) == Some(n)
    ensures n.m < 0 ==> |Unparsed(n)| > 1 && Unparsed(n)[0] == '-' && ReadDecimal(Unparsed(n)[1..]) == Some(Negate(n))
  {
    if n.m == 0 {
      PlainDoesNotMatch("0");
      ReadWhole("0");
      assert "0"[..0] == "" && ValueOf("0") == 0;
    } else if n.m > 0 {
      MagnitudeExpands("", n);
      assert "" + Magnitude(n) == Magnitude(n);
      ReadLayout(n);
      assert "" + Layout(Digits(n.m), |Digits(n.m)| + n.e) == Layout(Digits(n.m), |Digits(n.m)| + n.e);
    } else {
      var p := Negate(n);
      MagnitudeExpands("-", p);
      ReadLayout(p);
      assert Unparsed(n)[1..] == Layout(Digits(p.m), |Digits(p.m)| + p.e);
    }
  }

  lemma ReadableIsUnsigned(text: string)
    requires ReadDecimal(text).Some?
    ensures text != "" && text[0] != '-'
  {
    var dot := IndexOf(text, '.');
    assert IsDigit(text[..dot][0]);
  }

  /** Different numbers have different texts. */
  lemma ShortestIsInjective(a: Number, b: Number)
    ensures Shortest(a) == Shortest(b) <==> a == b
  {
    hide ReadDecimal, Shortest, Expanded;
    if Shortest(a) == Shortest(b) {
      UnparsedReadsBack(a);
      UnparsedReadsBack(b);
      if a.m >= 0 { ReadableIsUnsigned(Unparsed(a)); }
      if b.m >= 0 { ReadableIsUnsigned(Unparsed(b)); }
    }
  }
}
