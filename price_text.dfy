/**
 * The price-text cleaners of the parsers and scrapers: currency markers and
 * thousands separators are deleted with `str.replace`, then the text is
 * trimmed and handed to `float`. Three variants occur:
 * the JSON, CSV and merchant-XML parsers remove "MXN", "$", "," in that order;
 * the generic XML parser removes only "$" and ",";
 * the scraper's `clean_price` removes "$", ",", " " and "MXN" in that order.
 */
module PriceText {
  import opened Wrappers
  import Text
  import Numerals

  /** A character of a plain decimal numeral. */
  predicate IsNumeralChar(c: char) {
    '0' <= c <= '9' || c == '.'
  }

  predicate Numeral(s: string) {
    forall i :: 0 <= i < |s| ==> IsNumeralChar(s[i])
  }

  /** `.replace('MXN', '').replace('$', '').replace(',', '').strip()`. */
  function CleanCurrency(s: string): string {
    Text.Strip(Text.Remove(Text.Remove(Text.Remove(s, "MXN"), "$"), ","))
  }

  /** `.replace('$', '').replace(',', '').strip()`. */
  function CleanGeneric(s: string): string {
    Text.Strip(Text.Remove(Text.Remove(s, "$"), ","))
  }

  /** `.replace('$', '').replace(',', '').replace(' ', '').replace('MXN', '').strip()`. */
  function CleanScraped(s: string): string {
    Text.Strip(Text.Remove(Text.Remove(Text.Remove(Text.Remove(s, "$"), ","), " "), "MXN"))
  }

  /** A character outside the numeral alphabet does not occur in a numeral. */
  lemma AbsentIn(d: string, c: char)
    requires Numeral(d) && !IsNumeralChar(c)
    ensures c !in d
  {
    forall i | 0 <= i < |d|
      ensures d[i] != c
    {
      assert IsNumeralChar(d[i]);
    }
  }

  /** A numeral has no whitespace at its ends. */
  lemma NumeralTrimmed(d: string)
    requires Numeral(d)
    ensures Text.Strip(d) == d
  {
    if d != [] {
      assert IsNumeralChar(d[0]) && IsNumeralChar(d[|d| - 1]);
    }
    Text.StripTrimmed(d);
  }

  lemma NumeralAppend(a: string, b: string)
    requires Numeral(a) && Numeral(b)
    ensures Numeral(a + b)
  {
    forall i | 0 <= i < |a + b|
      ensures IsNumeralChar((a + b)[i])
    {
      if i < |a| {
        assert (a + b)[i] == a[i];
      } else {
        assert (a + b)[i] == b[i - |a|];
      }
    }
  }

  /** A bare numeral passes the currency cleaner unchanged. */
  lemma CurrencyKeepsNumeral(d: string)
    requires Numeral(d)
    ensures CleanCurrency(d) == d
  {
    AbsentIn(d, 'M');
    AbsentIn(d, '$');
    AbsentIn(d, ',');
    Text.RemoveAbsent(d, "MXN");
    Text.RemoveAbsent(d, "$");
    Text.RemoveAbsent(d, ",");
    NumeralTrimmed(d);
  }

  /** A bare numeral passes the generic cleaner unchanged. */
  lemma GenericKeepsNumeral(d: string)
    requires Numeral(d)
    ensures CleanGeneric(d) == d
  {
    AbsentIn(d, '$');
    AbsentIn(d, ',');
    Text.RemoveAbsent(d, "$");
    Text.RemoveAbsent(d, ",");
    NumeralTrimmed(d);
  }

  /** A bare numeral passes the scraper's cleaner unchanged. */
  lemma ScrapedKeepsNumeral(d: string)
    requires Numeral(d)
    ensures CleanScraped(d) == d
  {
    AbsentIn(d, '$');
    AbsentIn(d, ',');
    AbsentIn(d, ' ');
    AbsentIn(d, 'M');
    Text.RemoveAbsent(d, "$");
    Text.RemoveAbsent(d, ",");
    Text.RemoveAbsent(d, " ");
    Text.RemoveAbsent(d, "MXN");
    NumeralTrimmed(d);
  }

  /** `"$" + a + "," + b` without its dollar sign and separator. */
  lemma DropDollarSeparator(a: string, b: string)
    requires Numeral(a) && Numeral(b)
    ensures Text.Remove(Text.Remove("$" + a + "," + b, "$"), ",") == a + b
  {
    var t := a + [','] + b;
    assert "$" + a + "," + b == "$" + t;
    AbsentIn(a, '$');
    AbsentIn(b, '$');
    Text.RemoveLeading("$", t);
    Text.RemoveAbsent(t, "$");
    AbsentIn(a, ',');
    AbsentIn(b, ',');
    Text.RemoveBetween(a, b, ',');
  }

  /** "$" followed by a numeral with a thousands separator: the currency cleaner yields the digits. */
  lemma CurrencyDollarThousands(a: string, b: string)
    requires Numeral(a) && Numeral(b)
    ensures CleanCurrency("$" + a + "," + b) == a + b
  {
    AbsentIn(a, 'M');
    AbsentIn(b, 'M');
    Text.RemoveAbsent("$" + a + "," + b, "MXN");
    DropDollarSeparator(a, b);
    NumeralAppend(a, b);
    NumeralTrimmed(a + b);
  }

  /** The same for the generic cleaner. */
  lemma GenericDollarThousands(a: string, b: string)
    requires Numeral(a) && Numeral(b)
    ensures CleanGeneric("$" + a + "," + b) == a + b
  {
    DropDollarSeparator(a, b);
    NumeralAppend(a, b);
    NumeralTrimmed(a + b);
  }

  /** The same for the scraper's cleaner. */
  lemma ScrapedDollarThousands(a: string, b: string)
    requires Numeral(a) && Numeral(b)
    ensures CleanScraped("$" + a + "," + b) == a + b
  {
    DropDollarSeparator(a, b);
    NumeralAppend(a, b);
    AbsentIn(a + b, ' ');
    AbsentIn(a + b, 'M');
    Text.RemoveAbsent(a + b, " ");
    Text.RemoveAbsent(a + b, "MXN");
    NumeralTrimmed(a + b);
  }

  /** "$" before a numeral: the currency cleaner yields the numeral. */
  lemma CurrencyDollar(d: string)
    requires Numeral(d)
    ensures CleanCurrency("$" + d) == d
  {
    AbsentIn(d, 'M');
    AbsentIn(d, '$');
    AbsentIn(d, ',');
    Text.RemoveAbsent("$" + d, "MXN");
    Text.RemoveLeading("$", d);
    Text.RemoveAbsent(d, "$");
    Text.RemoveAbsent(d, ",");
    NumeralTrimmed(d);
  }

  /** "MXN " + d loses its prefix under `.replace('MXN', '')`. */
  lemma DropMxn(d: string)
    requires 'M' !in d
    ensures Text.Remove("MXN " + d, "MXN") == [' '] + d
  {
    assert "MXN " + d == "MXN" + ([' '] + d);
    Text.RemoveLeading("MXN", [' '] + d);
    Text.RemoveCons(' ', d, "MXN");
    Text.RemoveAbsent(d, "MXN");
  }

  /** "MXN " before a numeral: the currency cleaner yields the numeral. */
  lemma CurrencyMxn(d: string)
    requires Numeral(d)
    ensures CleanCurrency("MXN " + d) == d
  {
    AbsentIn(d, 'M');
    AbsentIn(d, '$');
    AbsentIn(d, ',');
    DropMxn(d);
    Text.RemoveAbsent([' '] + d, "$");
    Text.RemoveAbsent([' '] + d, ",");
    if d != [] {
      assert IsNumeralChar(d[0]) && IsNumeralChar(d[|d| - 1]);
    }
    Text.StripLeadingSpace(d);
  }

  /** The scraper deletes the space after "MXN" before it deletes "MXN". */
  lemma ScrapedDropMxn(d: string)
    requires Numeral(d)
    ensures Text.Remove(Text.Remove("MXN " + d, " "), "MXN") == d
  {
    AbsentIn(d, ' ');
    AbsentIn(d, 'M');
    Text.RemoveBetween("MXN", d, ' ');
    assert "MXN" + [' '] + d == "MXN " + d;
    Text.RemoveLeading("MXN", d);
    Text.RemoveAbsent(d, "MXN");
  }

  /** "MXN " before a numeral with a thousands separator (the scraper's "MXN 1,299.99" example). */
  lemma ScrapedMxnThousands(a: string, b: string)
    requires Numeral(a) && Numeral(b)
    ensures CleanScraped("MXN " + a + "," + b) == a + b
  {
    var s := "MXN " + a + "," + b;
    AbsentIn(a, '$');
    AbsentIn(b, '$');
    Text.RemoveAbsent(s, "$");
    AbsentIn(a, ',');
    AbsentIn(b, ',');
    assert s == ("MXN " + a) + [','] + b;
    Text.RemoveBetween("MXN " + a, b, ',');
    assert "MXN " + a + b == "MXN " + (a + b);
    NumeralAppend(a, b);
    ScrapedDropMxn(a + b);
    NumeralTrimmed(a + b);
  }

  /** "$ " before a numeral (the scraper's "$ 1299" example): the scraper yields the numeral. */
  lemma ScrapedDollarSpace(d: string)
    requires Numeral(d)
    ensures CleanScraped("$ " + d) == d
  {
    var t := [' '] + d;
    assert "$ " + d == "$" + t;
    AbsentIn(d, '$');
    AbsentIn(d, ',');
    AbsentIn(d, ' ');
    AbsentIn(d, 'M');
    Text.RemoveLeading("$", t);
    Text.RemoveAbsent(t, "$");
    Text.RemoveAbsent(t, ",");
    Text.RemoveLeading(" ", d);
    Text.RemoveAbsent(d, " ");
    Text.RemoveAbsent(d, "MXN");
    NumeralTrimmed(d);
  }

  /** The generic XML cleaner keeps "MXN": the cleaned text is the input itself. */
  lemma GenericKeepsMxn(d: string)
    requires Numeral(d) && d != []
    ensures Text.Strip("MXN " + d) == "MXN " + d
    ensures CleanGeneric("MXN " + d) == "MXN " + d
  {
    var s := "MXN " + d;
    AbsentIn(d, '$');
    AbsentIn(d, ',');
    Text.RemoveAbsent(s, "$");
    Text.RemoveAbsent(s, ",");
    assert s[|s| - 1] == d[|d| - 1] && IsNumeralChar(d[|d| - 1]);
    Text.StripTrimmed(s);
  }

  /** Trimmed text that starts with "M" (such as a kept "MXN") does not convert. */
  lemma MxnNotNumber(s: string)
    requires |s| > 0 && s[0] == 'M' && Text.Strip(s) == s
    ensures Numerals.ParseFloat(s).None?
  {
    MxnNotSigned(s);
  }

  lemma MxnNotSigned(s: string)
    requires |s| > 0 && s[0] == 'M'
    ensures Numerals.ParseSigned(s).None?
  {
    assert !Numerals.IsDigit(s[0]) && s[0] !in "+-.";
    Numerals.RejectsLetterStart(s);
  }

  /**
   * Text whose first character is neither a digit, a sign, a point, a
   * removed marker nor whitespace is rejected by the currency cleaner's
   * conversion (the price error path: `float` raises).
   */
  lemma CurrencyRejectsLead(s: string)
    requires s != [] && !Numerals.IsDigit(s[0]) && s[0] !in "+-.M$," && !Text.IsSpace(s[0])
    ensures Numerals.ParseFloat(CleanCurrency(s)).None?
  {
    var r1 := Text.Remove(s, "MXN");
    Text.RemoveKeepsHead(s, "MXN");
    var r2 := Text.Remove(r1, "$");
    Text.RemoveKeepsHead(r1, "$");
    var r3 := Text.Remove(r2, ",");
    Text.RemoveKeepsHead(r2, ",");
    Text.StripKeepsHead(r3);
    var c := Text.Strip(r3);
    Text.StripIdempotent(r3);
    assert c[0] == s[0];
    Numerals.RejectsLetterStart(c);
  }

  /** The spellings "$1,299.99" and "MXN 1299.99" clean to the same numeral "1299.99". */
  lemma PriceSpellingsAgree()
    ensures CleanCurrency("$1,299.99") == CleanCurrency("MXN 1299.99") == "1299.99"
    ensures CleanScraped("$1,299.99") == CleanScraped("MXN 1,299.99") == "1299.99"
  {
    assert Numeral("1") && Numeral("299.99") && Numeral("1299.99");
    assert "$1,299.99" == "$" + "1" + "," + "299.99";
    assert "MXN 1299.99" == "MXN " + "1299.99";
    assert "MXN 1,299.99" == "MXN " + "1" + "," + "299.99";
    assert "1" + "299.99" == "1299.99";
    CurrencyDollarThousands("1", "299.99");
    CurrencyMxn("1299.99");
    ScrapedDollarThousands("1", "299.99");
    ScrapedMxnThousands("1", "299.99");
  }
}
