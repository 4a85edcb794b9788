/**
 * Python's `float(text)` on decimal numerals: optional surrounding
 * whitespace, an optional sign, digits with an optional fraction
 * (`12`, `12.`, `12.5`, `.5`). The value is exact (a `real`).
 */
module Numerals {
  import opened Wrappers
  import Text

  predicate IsDigit(c: char) {
    '0' <= c <= '9'
  }

  predicate AllDigits(s: string) {
    forall i :: 0 <= i < |s| ==> IsDigit(s[i])
  }

  /** The value of a string of decimal digits, most significant first. */
  function DigitsValue(s: string): (n: nat)
    requires AllDigits(s)
    decreases |s|
  {
    if s == [] then 0
    else DigitsValue(s[..|s| - 1]) * 10 + (s[|s| - 1] as int - '0' as int)
  }

  function Pow10(k: nat): (p: nat)
    ensures p >= 1
  {
    if k == 0 then 1 else 10 * Pow10(k - 1)
  }

  /** Position of the first '.' in `s`, or `|s|` when there is none. */
  function DotIndex(s: string): (i: nat)
    ensures i <= |s|
    ensures i < |s| ==> s[i] == '.'
    ensures forall j :: 0 <= j < i ==> s[j] != '.'
    decreases |s|
  {
    if s == [] then 0 else if s[0] == '.' then 0 else 1 + DotIndex(s[1..])
  }

  /** The value of the numeral `whole.frac`. */
  function Decimal(whole: string, frac: string): real
    requires AllDigits(whole) && AllDigits(frac)
  {
    DigitsValue(whole) as real + (DigitsValue(frac) as real) / (Pow10(|frac|) as real)
  }

  /** An unsigned numeral `digits[.digits]` with at least one digit. */
  function ParseUnsigned(s: string): (r: Option<real>)
    ensures r.Some? ==> r.value >= 0.0
  {
    var i := DotIndex(s);
    var whole := s[..i];
    var frac := if i < |s| then s[i + 1..] else [];
    if (whole == [] && frac == []) || !AllDigits(whole) || !AllDigits(frac) then None
    else Some(Decimal(whole, frac))
  }

  /** A numeral with an optional leading sign. */
  function ParseSigned(s: string): (r: Option<real>)
  {
    if s == [] then None
    else if s[0] == '+' then ParseUnsigned(s[1..])
    else if s[0] == '-' then
      (match ParseUnsigned(s[1..])
       case Some(v) => Some(-v)
       case None => None)
    else ParseUnsigned(s)
  }

  /** Python's `float(text)`: `None` where Python raises `ValueError`. */
  function ParseFloat(text: string): Option<real> {
    ParseSigned(Text.Strip(text))
  }

  /** Text that starts with neither a sign, a digit nor a point is not a numeral. */
  lemma RejectsLetterStart(s: string)
    requires s != [] && !IsDigit(s[0]) && s[0] !in "+-."
    ensures ParseSigned(s).None?
  {
    assert s[0] != '+' && s[0] != '-';
    UnsignedRejects(s);
  }

  lemma UnsignedRejects(s: string)
    requires s != [] && !IsDigit(s[0]) && s[0] != '.'
    ensures ParseUnsigned(s).None?
  {
    var i := DotIndex(s);
    assert i > 0;
    assert !AllDigits(s[..i]) by {
      assert s[..i][0] == s[0];
    }
  }

  /** A non-empty digit string parses as an unsigned numeral to its value. */
  lemma DigitsParse(s: string)
    requires s != [] && AllDigits(s)
    ensures ParseSigned(s) == Some(DigitsValue(s) as real)
  {
    assert IsDigit(s[0]);
    NoDotParse(s);
  }

  lemma NoDotParse(s: string)
    requires s != [] && AllDigits(s)
    ensures ParseUnsigned(s) == Some(DigitsValue(s) as real)
  {
    assert forall j :: 0 <= j < |s| ==> s[j] != '.' by {
      forall j | 0 <= j < |s| ensures s[j] != '.' {
        assert IsDigit(s[j]);
      }
    }
    var i := DotIndex(s);
    assert i == |s|;
    assert s[..i] == s;
    WholeDecimal(s);
  }

  /** A numeral without a fraction is worth its digits. */
  lemma WholeDecimal(s: string)
    requires AllDigits(s)
    ensures Decimal(s, []) == DigitsValue(s) as real
  {
    assert Pow10(0) == 1 && DigitsValue([]) == 0;
  }

  /** A numeral `whole.frac` of digit strings parses to its exact decimal value. */
  lemma DecimalParse(whole: string, frac: string)
    requires whole != [] && AllDigits(whole) && AllDigits(frac)
    ensures ParseSigned(whole + "." + frac)
      == Some(Decimal(whole, frac))
  {
    var s := whole + "." + frac;
    assert s[|whole|] == '.';
    forall j | 0 <= j < |whole|
      ensures s[j] != '.'
    {
      assert s[j] == whole[j] && IsDigit(whole[j]);
    }
    DotIndexAt(s, |whole|);
    assert s[..|whole|] == whole;
    assert s[|whole| + 1..] == frac;
    UnsignedParts(s, whole, frac);
    assert s[0] == whole[0] && IsDigit(whole[0]);
  }

  /** `float` of a numeral `whole.frac` of digit strings is its exact decimal value. */
  lemma DecimalFloat(whole: string, frac: string)
    requires whole != [] && AllDigits(whole) && AllDigits(frac)
    ensures ParseFloat(whole + "." + frac)
      == Some(Decimal(whole, frac))
  {
    DecimalParse(whole, frac);
    DecimalTrimmed(whole, frac);
    FloatOfTrimmed(whole + "." + frac);
  }

  lemma DecimalTrimmed(whole: string, frac: string)
    requires whole != [] && AllDigits(whole) && AllDigits(frac)
    ensures var s := whole + "." + frac; s != [] && !Text.IsSpace(s[0]) && !Text.IsSpace(s[|s| - 1])
  {
    var s := whole + "." + frac;
    assert s[0] == whole[0] && IsDigit(whole[0]);
    if frac == [] {
      assert s[|s| - 1] == '.';
    } else {
      assert s[|s| - 1] == frac[|frac| - 1] && IsDigit(frac[|frac| - 1]);
    }
  }

  /** Text without surrounding whitespace is converted as it stands. */
  lemma FloatOfTrimmed(s: string)
    requires s != [] && !Text.IsSpace(s[0]) && !Text.IsSpace(s[|s| - 1])
    ensures ParseFloat(s) == ParseSigned(s)
  {
    Text.StripTrimmed(s);
  }

  /** `float("1299.99")` and `float("10.00")`, the prices of the examples. */
  lemma ExampleValues()
    ensures ParseFloat("1299.99") == Some(1299.99)
    ensures ParseFloat("10.00") == Some(10.0)
  {
    Value1299();
    Value10();
  }

  lemma Value1299()
    ensures ParseFloat("1299.99") == Some(1299.99)
  {
    Digits1299();
    Cents("1299", "99", 1299, 99, 1299.99);
    assert "1299" + "." + "99" == "1299.99";
    DecimalIs("1299", "99", "1299.99", 1299.99);
  }

  /** `float(s)` of a numeral `s` spelled `whole.frac`, whose value is `v`. */
  lemma DecimalIs(whole: string, frac: string, s: string, v: real)
    requires s == whole + "." + frac && whole != [] && AllDigits(whole) && AllDigits(frac)
    requires Decimal(whole, frac) == v
    ensures ParseFloat(s) == Some(v)
  {
    DecimalFloat(whole, frac);
  }

  /** A numeral with two decimals: its value from those of its digit strings. */
  lemma Cents(whole: string, frac: string, w: nat, f: nat, v: real)
    requires AllDigits(whole) && AllDigits(frac) && |frac| == 2
    requires DigitsValue(whole) == w && DigitsValue(frac) == f && w as real + (f as real) / 100.0 == v
    ensures Decimal(whole, frac) == v
  {
    assert Pow10(2) == 100;
  }

  lemma Digits1299()
    ensures AllDigits("1299") && AllDigits("99")
    ensures DigitsValue("1299") == 1299 && DigitsValue("99") == 99 && Pow10(|"99"|) == 100
  {
    assert "1299"[..3] == "129" && "129"[..2] == "12" && "12"[..1] == "1" && "1"[..0] == "";
    assert "99"[..1] == "9" && "9"[..0] == "";
  }

  lemma Value10()
    ensures ParseFloat("10.00") == Some(10.0)
  {
    Digits10();
    Cents("10", "00", 10, 0, 10.0);
    assert "10" + "." + "00" == "10.00";
    DecimalIs("10", "00", "10.00", 10.0);
  }

  lemma Digits10()
    ensures AllDigits("10") && AllDigits("00")
    ensures DigitsValue("10") == 10 && DigitsValue("00") == 0 && Pow10(|"00"|) == 100
  {
    assert "10"[..1] == "1" && "1"[..0] == "";
    assert "00"[..1] == "0" && "0"[..0] == "";
  }

  lemma UnsignedParts(s: string, whole: string, frac: string)
    requires DotIndex(s) == |whole| < |s|
    requires s[..|whole|] == whole && s[|whole| + 1..] == frac
    requires whole != [] && AllDigits(whole) && AllDigits(frac)
    ensures ParseUnsigned(s)
      == Some(Decimal(whole, frac))
  {
    var i := DotIndex(s);
    assert s[..i] == whole;
    assert (if i < |s| then s[i + 1..] else []) == frac;
  }

  lemma {:induction false} DotIndexAt(s: string, k: nat)
    requires k < |s| && s[k] == '.' && forall j :: 0 <= j < k ==> s[j] != '.'
    ensures DotIndex(s) == k
    decreases k
  {
    if k > 0 {
      DotIndexAt(s[1..], k - 1);
    }
  }

  /** Decimal rendering of a natural number (Python's `str(n)`). */
  function NatToString(n: nat): (s: string)
    ensures s != [] && AllDigits(s)
    decreases n
  {
    if n < 10 then [('0' as int + n) as char]
    else NatToString(n / 10) + [('0' as int + n % 10) as char]
  }

  lemma {:induction false} NatToStringValue(n: nat)
    ensures DigitsValue(NatToString(n)) == n
    decreases n
  {
    var s := NatToString(n);
    if n >= 10 {
      NatToStringValue(n / 10);
      assert s[..|s| - 1] == NatToString(n / 10);
    }
  }

  /** The rendering of every natural number parses back to that number. */
  lemma NatToStringRoundTrip(n: nat)
    ensures ParseFloat(NatToString(n)) == Some(n as real)
  {
    var s := NatToString(n);
    NatToStringValue(n);
    DigitsParse(s);
    assert IsDigit(s[0]) && IsDigit(s[|s| - 1]);
    Text.StripTrimmed(s);
  }
}
