/** Decimal text for the numbers the inventory code reads and writes: Python's `str()` of
    integers and of two-place decimals (prices), and `float()` of a decimal literal, followed
    by `int()` (truncation toward zero) or by storage in a two-place decimal column. */
module Numbers {
  import opened Text

  predicate IsDigit(c: char) {
    '0' <= c <= '9'
  }

  predicate AllDigits(s: string) {
    forall i :: 0 <= i < |s| ==> IsDigit(s[i])
  }

  function DigitChar(d: nat): (c: char)
    requires d < 10
    ensures IsDigit(c) && c as int - '0' as int == d
  {
    ('0' as int + d) as char
  }

  /** The value of a string of decimal digits, most significant first. */
  function DigitsValue(s: string): nat
    requires AllDigits(s)
  {
    if s == [] then 0 else 10 * DigitsValue(s[..|s| - 1]) + (s[|s| - 1] as int - '0' as int)
  }

  function Pow10(n: nat): (p: nat)
    ensures p >= 1
  {
    if n == 0 then 1 else 10 * Pow10(n - 1)
  }

  /** Python's `str(n)` for a non-negative integer. */
  function NatToString(n: nat): (s: string)
    ensures |s| >= 1 && AllDigits(s)
    ensures DigitsValue(s) == n
    ensures s[0] == '0' ==> n == 0
  {
    if n < 10 then [DigitChar(n)]
    else
      var init := NatToString(n / 10);
      var s := init + [DigitChar(n % 10)];
      assert s[..|s| - 1] == init;
      s
  }

  /** Python's `str(i)` for an integer. */
  function IntToString(i: int): (s: string)
    ensures |s| >= 1
    ensures i >= 0 ==> AllDigits(s)
    ensures i < 0 ==> s[0] == '-' && AllDigits(s[1..])
  {
    if i < 0 then "-" + NatToString(-i) else NatToString(i)
  }

  /** Python's `str(d)` for a `Decimal` with two decimal places, given in hundredths. */
  function MoneyText(cents: int): (s: string)
    ensures |s| >= 1
    ensures cents >= 0 ==> s == UnsignedMoneyText(cents)
    ensures cents < 0 ==> s[0] == '-'
  {
    if cents < 0 then "-" + UnsignedMoneyText(-cents) else UnsignedMoneyText(cents)
  }

  /** Two-place decimal text of a non-negative amount in hundredths: the whole units in
      digits, a point, and exactly two digits. */
  function UnsignedMoneyText(cents: nat): (s: string)
    ensures |s| >= 4 && s[|s| - 3] == '.'
    ensures AllDigits(s[..|s| - 3]) && AllDigits(s[|s| - 2..])
  {
    var whole := NatToString(cents / 100);
    var hundredths := cents % 100;
    var s := whole + "." + [DigitChar(hundredths / 10), DigitChar(hundredths % 10)];
    assert s[..|s| - 3] == whole;
    s
  }

  /** Index of the first occurrence of `a` or `b` in `s`, or `|s|` if there is none. */
  function IndexOfEither(s: string, a: char, b: char): (i: nat)
    ensures i <= |s|
    ensures i < |s| ==> s[i] == a || s[i] == b
  {
    if s == [] then 0
    else if s[0] == a || s[0] == b then 0
    else 1 + IndexOfEither(s[1..], a, b)
  }

  /** A signed integer written with at least one digit: an exponent, or the operand of `int()`. */
  function ParseSignedDigits(s: string): Option<int>
  {
    var neg := |s| > 0 && s[0] == '-';
    var body := if |s| > 0 && (s[0] == '+' || s[0] == '-') then s[1..] else s;
    if body != [] && AllDigits(body) then
      var v: int := DigitsValue(body);
      Some(if neg then -v else v)
    else None
  }

  /** The unsigned part of a decimal literal before any exponent: digits, optionally a point
      and more digits, with at least one digit in all. */
  function ParseMantissa(s: string): Option<real>
  {
    var p := IndexOfEither(s, '.', '.');
    ParsePointed(s[..p], if p < |s| then s[p + 1..] else "")
  }

  /** The value of `whole.frac`, when both are digit strings and not both empty. */
  function ParsePointed(whole: string, frac: string): Option<real>
  {
    if (whole != [] || frac != []) && AllDigits(whole) && AllDigits(frac) then
      Some(DigitsValue(whole) as real + DigitsValue(frac) as real / Pow10(|frac|) as real)
    else None
  }

  function Scale(v: real, e: int): real
  {
    if e >= 0 then v * Pow10(e) as real else v / Pow10(-e) as real
  }

  /** Python's `float(s)` on a finite decimal literal written with ASCII digits (sign, digits
      with an optional point, optional exponent). `None` stands for the `ValueError` raised on
      anything else, and also for the literals `float` accepts that this model does not read:
      other Unicode decimal digits, `inf`, `nan` and underscores. */
  function ParseDecimal(s: string): Option<real>
  {
    var neg := |s| > 0 && s[0] == '-';
    var body := if |s| > 0 && (s[0] == '+' || s[0] == '-') then s[1..] else s;
    var e := IndexOfEither(body, 'e', 'E');
    var mantissa := ParseMantissa(body[..e]);
    if mantissa.None? then None
    else if e == |body| then Some(if neg then -mantissa.value else mantissa.value)
    else
      match ParseSignedDigits(body[e + 1..])
      case None => None
      case Some(x) =>
        var v := Scale(mantissa.value, x);
        Some(if neg then -v else v)
  }

  /** Python's `int(x)` for a float `x`: truncation toward zero. */
  function Truncate(x: real): (n: int)
    ensures x >= 0.0 ==> n as real <= x < n as real + 1.0
    ensures x < 0.0 ==> n as real - 1.0 < x <= n as real
  {
    if x >= 0.0 then x.Floor else -((-x).Floor)
  }

  /** A value stored in a decimal column with two places, in hundredths: rounded to the
      nearest hundredth, ties to the even hundredth (Python's default decimal rounding). */
  function QuantizeCents(x: real): (c: int)
    ensures (c as real - x * 100.0) <= 0.5 && (x * 100.0 - c as real) <= 0.5
    ensures x * 100.0 - (x * 100.0).Floor as real == 0.5 ==> c % 2 == 0
  {
    var y := x * 100.0;
    var f := y.Floor;
    var d := y - f as real;
    if d < 0.5 then f
    else if d > 0.5 then f + 1
    else if f % 2 == 0 then f else f + 1
  }

  lemma DigitsHaveNoSeparator(s: string, a: char, b: char)
    requires AllDigits(s) && !IsDigit(a) && !IsDigit(b)
    ensures IndexOfEither(s, a, b) == |s|
  {
    if s != [] {
      assert IsDigit(s[0]);
      DigitsHaveNoSeparator(s[1..], a, b);
    }
  }

  lemma TwoDigitsValue(n: nat)
    requires n < 100
    ensures DigitsValue([DigitChar(n / 10), DigitChar(n % 10)]) == n
  {
    var s := [DigitChar(n / 10), DigitChar(n % 10)];
    assert s[..1] == [DigitChar(n / 10)];
    assert s[..1][..0] == [];
    assert DigitsValue(s[..1]) == n / 10;
    assert DigitsValue(s) == 10 * DigitsValue(s[..1]) + n % 10;
  }

  lemma MantissaOfDigits(s: string)
    requires s != [] && AllDigits(s)
    ensures ParseMantissa(s) == Some(DigitsValue(s) as real)
  {
    DigitsHaveNoSeparator(s, '.', '.');
    assert s[..|s|] == s;
    var empty: string := "";
    assert DigitsValue(empty) == 0 && Pow10(|empty|) == 1;
    assert ParsePointed(s, empty) == Some(DigitsValue(s) as real + 0.0 / 1.0);
  }

  /** `float(str(n))` is `n`: integers written by the export read back unchanged. */
  lemma IntTextRoundTrip(n: int)
    ensures ParseDecimal(IntToString(n)) == Some(n as real)
  {
    var s := IntToString(n);
    var body := if n < 0 then NatToString(-n) else NatToString(n);
    assert body == (if |s| > 0 && (s[0] == '+' || s[0] == '-') then s[1..] else s);
    DigitsHaveNoSeparator(body, 'e', 'E');
    assert body[..|body|] == body;
    MantissaOfDigits(body);
  }

  /** `float(str(d))` is `d` for a two-place decimal, and storing it again in a two-place
      column gives back the same hundredths: prices written by the export read back unchanged. */
  lemma MoneyTextRoundTrip(cents: nat)
    ensures ParseDecimal(MoneyText(cents)) == Some(cents as real / 100.0)
    ensures QuantizeCents(cents as real / 100.0) == cents
  {
    MoneyMantissa(cents);
    MoneyNoExponent(cents);
    NoExponent(MoneyText(cents));
    QuantizeWhole(cents);
  }

  lemma MoneyMantissa(cents: nat)
    ensures ParseMantissa(MoneyText(cents)) == Some(cents as real / 100.0)
  {
    var q, r := cents / 100, cents % 100;
    var whole := NatToString(q);
    var frac := [DigitChar(r / 10), DigitChar(r % 10)];
    assert MoneyText(cents) == whole + ("." + frac);
    PointedMantissa(whole, frac);
    TwoDigitsValue(r);
    assert Pow10(|frac|) == 100;
    assert ParsePointed(whole, frac) == Some(q as real + r as real / 100 as real);
    CentsValue(cents);
  }

  lemma CentsValue(cents: nat)
    ensures (cents / 100) as real + (cents % 100) as real / 100 as real == cents as real / 100.0
  {
    var q, r := cents / 100, cents % 100;
    MoneyValue(q, r);
    assert 100 * q + r == cents;
  }

  lemma MoneyNoExponent(cents: nat)
    ensures IndexOfEither(MoneyText(cents), 'e', 'E') == |MoneyText(cents)|
    ensures IsDigit(MoneyText(cents)[0])
  {
    var r := cents % 100;
    var whole := NatToString(cents / 100);
    var frac := [DigitChar(r / 10), DigitChar(r % 10)];
    assert MoneyText(cents) == whole + ("." + frac);
    DigitsHaveNoSeparator(whole, 'e', 'E');
    IndexOfEitherSkip(whole, "." + frac, 'e', 'E');
    IndexOfEitherSkip(".", frac, 'e', 'E');
    DigitsHaveNoSeparator(frac, 'e', 'E');
    assert "." + frac == ['.'] + frac;
  }

  lemma MoneyValue(q: nat, r: nat)
    requires r < 100
    ensures q as real + r as real / 100 as real == (100 * q + r) as real / 100.0
  {
  }

  lemma QuantizeWhole(cents: int)
    ensures QuantizeCents(cents as real / 100.0) == cents
  {
    var y := cents as real / 100.0 * 100.0;
    assert y == cents as real;
    assert y.Floor == cents;
  }

  /** Digits, a point and digits parse as the whole part plus the scaled fraction. */
  lemma PointedMantissa(whole: string, frac: string)
    requires AllDigits(whole)
    ensures ParseMantissa(whole + ("." + frac)) == ParsePointed(whole, frac)
  {
    var s := whole + ("." + frac);
    DigitsHaveNoSeparator(whole, '.', '.');
    IndexOfEitherSkip(whole, "." + frac, '.', '.');
    assert IndexOfEither("." + frac, '.', '.') == 0;
    assert IndexOfEither(s, '.', '.') == |whole|;
    assert s[..|whole|] == whole;
    assert s[|whole| + 1..] == frac;
  }

  /** A literal that starts with a digit and contains no `e`/`E` is read by its mantissa alone. */
  lemma NoExponent(s: string)
    requires s != [] && IsDigit(s[0])
    requires IndexOfEither(s, 'e', 'E') == |s|
    requires ParseMantissa(s).Some?
    ensures ParseDecimal(s) == ParseMantissa(s)
  {
    assert s[0] != '+' && s[0] != '-';
    assert s[..|s|] == s;
  }

  lemma IndexOfEitherSkip(s: string, t: string, a: char, b: char)
    requires IndexOfEither(s, a, b) == |s|
    ensures IndexOfEither(s + t, a, b) == |s| + IndexOfEither(t, a, b)
  {
    if s != [] {
      assert s[0] != a && s[0] != b;
      assert IndexOfEither(s[1..], a, b) == |s| - 1;
      assert (s + t)[0] == s[0];
      assert (s + t)[1..] == s[1..] + t;
      IndexOfEitherSkip(s[1..], t, a, b);
      assert IndexOfEither(s + t, a, b) == 1 + IndexOfEither((s + t)[1..], a, b);
    } else {
      assert s + t == t;
    }
  }
}
