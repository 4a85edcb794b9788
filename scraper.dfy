/**
 * The shared scraper helpers (app/scrapers/base.py): the page fetch with
 * retries and exponential back-off, the price and name cleaners, and the
 * concurrent scrape of several product pages.
 *
 * The HTTP client is a parameter: `server(k)` is the outcome of attempt
 * `k`. The waits are returned as the list of their lengths in seconds
 * instead of being slept.
 */
module Scraper {
  import opened Wrappers
  import Text
  import Numerals
  import PriceText
  import Seqs

  // Fetching ----------------------------------------------------------------

  /** The outcome of one GET: the body, or an HTTP error (a failed status included). */
  datatype Outcome = Ok(body: string) | HttpError

  function Pow2(k: nat): (p: nat)
    ensures p >= 1
  {
    if k == 0 then 1 else 2 * Pow2(k - 1)
  }

  /** The waits after the first `n` failed attempts: 1, 2, 4, ... seconds. */
  function Backoff(n: nat): (ws: seq<nat>)
    ensures |ws| == n && forall i :: 0 <= i < n ==> ws[i] == Pow2(i)
  {
    seq(n, i requires 0 <= i => Pow2(i))
  }

  /** The first of the first `n` attempts that succeeds. */
  function FirstSuccess(server: nat -> Outcome, n: nat): (r: Option<nat>)
    ensures r.Some? ==> r.value < n && server(r.value).Ok? && forall j :: 0 <= j < r.value ==> server(j).HttpError?
    ensures r.None? <==> forall j :: 0 <= j < n ==> server(j).HttpError?
  {
    if n == 0 then None
    else
      match FirstSuccess(server, n - 1)
      case Some(k) => Some(k)
      case None => if server(n - 1).Ok? then Some(n - 1) else None
  }

  /**
   * `fetch(url, retry)`: at most `retry` attempts; the first body that comes
   * back is returned. Between two attempts it waits `2 ** attempt` seconds;
   * after the last failed attempt it gives up at once with `None`, and with
   * `retry <= 0` it makes no attempt at all.
   */
  method Fetch(server: nat -> Outcome, retry: int) returns (body: Option<string>, waits: seq<nat>)
    ensures match FirstSuccess(server, if retry < 0 then 0 else retry)
      case Some(k) => body == Some(server(k).body) && waits == Backoff(k)
      case None => body.None? && waits == Backoff(if retry <= 1 then 0 else retry - 1)
  {
    var attempt: nat := 0;
    waits := [];
    while attempt < retry
      invariant attempt == 0 || attempt < retry
      invariant FirstSuccess(server, attempt).None?
      invariant waits == Backoff(attempt)
    {
      var outcome := server(attempt);
      if outcome.Ok? {
        assert FirstSuccess(server, attempt + 1) == Some(attempt);
        FirstSuccessStable(server, attempt + 1, retry as nat);
        return Some(outcome.body), waits;
      }
      if attempt < retry - 1 {
        waits := waits + [Pow2(attempt)];
      } else {
        assert FirstSuccess(server, attempt + 1).None?;
        return None, waits;
      }
      attempt := attempt + 1;
    }
    return None, waits;
  }

  /** A success among the first `n` attempts is still the first among more. */
  lemma {:induction false} FirstSuccessStable(server: nat -> Outcome, n: nat, m: nat)
    requires n <= m && FirstSuccess(server, n).Some?
    ensures FirstSuccess(server, m) == FirstSuccess(server, n)
    decreases m - n
  {
    if n < m {
      FirstSuccessStable(server, n, m - 1);
    }
  }

  function Sum(ws: seq<nat>): nat {
    if ws == [] then 0 else Sum(ws[..|ws| - 1]) + ws[|ws| - 1]
  }

  /** Each wait doubles the one before, so `n` waits last `2 ** n - 1` seconds together. */
  lemma {:induction false} BackoffTotal(n: nat)
    ensures Sum(Backoff(n)) == Pow2(n) - 1
    ensures forall i :: 0 < i < n ==> Backoff(n)[i] == 2 * Backoff(n)[i - 1]
  {
    if n > 0 {
      BackoffTotal(n - 1);
      assert Backoff(n)[..n - 1] == Backoff(n - 1);
    }
  }

  // Cleaning ------------------------------------------------------------------

  /** `clean_price`: the cleaned text converted by `float`, `None` where that raises. */
  function CleanPrice(text: string): Option<real> {
    Numerals.ParseFloat(PriceText.CleanScraped(text))
  }

  /** The three examples of `clean_price`'s documentation. */
  lemma CleanPriceExamples()
    ensures CleanPrice("$1,299.99") == Some(1299.99)
    ensures CleanPrice("MXN 1,299.99") == Some(1299.99)
    ensures CleanPrice("$ 1299") == Some(1299.0)
  {
    PriceText.PriceSpellingsAgree();
    Numerals.Value1299();
    DollarSpace1299();
  }

  lemma DollarSpace1299()
    ensures CleanPrice("$ 1299") == Some(1299.0)
  {
    Numerals.Digits1299();
    assert "$ " + "1299" == "$ 1299";
    DollarSpaceIs("1299", "$ 1299", 1299.0);
  }

  lemma DollarSpaceIs(d: string, s: string, v: real)
    requires s == "$ " + d && d != [] && Numerals.AllDigits(d) && Numerals.DigitsValue(d) as real == v
    ensures CleanPrice(s) == Some(v)
  {
    DollarSpaceDigits(d);
  }

  /** "$ " before a digit string (the "$ 1299" spelling) is the value of the digits. */
  lemma DollarSpaceDigits(d: string)
    requires d != [] && Numerals.AllDigits(d)
    ensures CleanPrice("$ " + d) == Some(Numerals.DigitsValue(d) as real)
  {
    assert PriceText.Numeral(d) by {
      forall i | 0 <= i < |d| ensures PriceText.IsNumeralChar(d[i]) {
        assert Numerals.IsDigit(d[i]);
      }
    }
    PriceText.ScrapedDollarSpace(d);
    PriceText.NumeralTrimmed(d);
    Numerals.DigitsParse(d);
  }

  /** Text that is blank once cleaned is not a price. */
  lemma CleanPriceBlank(text: string)
    requires PriceText.CleanScraped(text) == []
    ensures CleanPrice(text).None?
  {
  }

  /**
   * Text that is a single space between words everywhere: no leading,
   * trailing or repeated whitespace, and no whitespace other than ' '.
   */
  predicate SingleSpaced(r: string) {
    forall i :: 0 <= i < |r| && Text.IsSpace(r[i]) ==> r[i] == ' ' && 0 < i && i + 1 < |r| && !Text.IsSpace(r[i + 1])
  }

  /** `clean_name`: `' '.join(name.split()).strip()`. */
  function CleanName(name: string): string {
    Text.Strip(Text.Join(Text.Words(name), " "))
  }

  /** Words that are non-empty and hold no whitespace. */
  predicate Spaceless(ws: seq<string>) {
    forall k :: 0 <= k < |ws| ==> ws[k] != [] && forall i :: 0 <= i < |ws[k]| ==> !Text.IsSpace(ws[k][i])
  }

  lemma SpacelessTail(ws: seq<string>)
    requires ws != [] && Spaceless(ws)
    ensures Spaceless(ws[1..]) && ws[0] != [] && forall i :: 0 <= i < |ws[0]| ==> !Text.IsSpace(ws[0][i])
  {
    forall k | 0 <= k < |ws[1..]| ensures ws[1..][k] == ws[k + 1] { }
  }

  /** The first word of text that starts with a word is that word. */
  lemma {:induction false} WordOf(w: string, rest: string)
    requires forall i :: 0 <= i < |w| ==> !Text.IsSpace(w[i])
    requires rest == [] || Text.IsSpace(rest[0])
    ensures Text.Word(w + rest) == w
    decreases |w|
  {
    if w != [] {
      assert (w + rest)[1..] == w[1..] + rest;
      WordOf(w[1..], rest);
    } else {
      assert w + rest == rest;
    }
  }

  /** Joining words with single spaces and splitting again gives back the words. */
  lemma {:induction false} WordsOfJoin(ws: seq<string>)
    requires Spaceless(ws)
    ensures Text.Words(Text.Join(ws, " ")) == ws
    decreases |ws|
  {
    if ws != [] {
      SpacelessTail(ws);
      var w, rest := ws[0], ws[1..];
      assert [w] + rest == ws;
      if rest == [] {
        WordsOne(w);
      } else {
        var j := Text.Join(rest, " ");
        WordsOfJoin(rest);
        assert Text.Join(ws, " ") == w + " " + j;
        WordsCons(w, j);
      }
    }
  }

  /** A single word splits into itself. */
  lemma WordsOne(w: string)
    requires w != [] && forall i :: 0 <= i < |w| ==> !Text.IsSpace(w[i])
    ensures Text.Words(w) == [w]
  {
    assert w == w + [];
    WordOf(w, []);
    assert Text.LStripBy(w, Text.IsSpace) == w;
    assert w[|w|..] == [];
  }

  /** A word and a space before text: the word, then the text's words. */
  lemma WordsCons(w: string, j: string)
    requires w != [] && forall i :: 0 <= i < |w| ==> !Text.IsSpace(w[i])
    ensures Text.Words(w + " " + j) == [w] + Text.Words(j)
  {
    var t := [' '] + j;
    var s := w + t;
    assert w + " " + j == s;
    assert s[0] == w[0];
    assert Text.LStripBy(s, Text.IsSpace) == s;
    WordOf(w, t);
    assert s[|w|..] == t;
    assert Text.LStripBy(t, Text.IsSpace) == Text.LStripBy(j, Text.IsSpace);
  }

  /** A word, a space and single-spaced text make single-spaced text. */
  lemma JoinStep(w: string, j: string)
    requires w != [] && forall i :: 0 <= i < |w| ==> !Text.IsSpace(w[i])
    requires j != [] && !Text.IsSpace(j[0]) && SingleSpaced(j)
    ensures SingleSpaced(w + " " + j)
  {
    var s := w + " " + j;
    forall i | 0 <= i < |s| && Text.IsSpace(s[i])
      ensures s[i] == ' ' && 0 < i && i + 1 < |s| && !Text.IsSpace(s[i + 1])
    {
      if i > |w| {
        assert s[i] == j[i - |w| - 1];
        assert i + 1 < |s| ==> s[i + 1] == j[i - |w|];
      }
    }
  }

  /** Words joined by single spaces are single-spaced, and start with the first word. */
  lemma {:induction false} JoinSingleSpaced(ws: seq<string>)
    requires Spaceless(ws)
    ensures SingleSpaced(Text.Join(ws, " "))
    ensures ws != [] ==> Text.Join(ws, " ") != [] && Text.Join(ws, " ")[0] == ws[0][0]
    decreases |ws|
  {
    if |ws| > 1 {
      SpacelessTail(ws);
      JoinSingleSpaced(ws[1..]);
      JoinStep(ws[0], Text.Join(ws[1..], " "));
    } else if |ws| == 1 {
      assert Text.Join(ws, " ") == ws[0];
    }
  }

  /**
   * A cleaned name is single-spaced and has the same words as the raw name;
   * so the final `.strip()` changes nothing and cleaning twice is cleaning
   * once.
   */
  lemma CleanNameSpec(name: string)
    ensures SingleSpaced(CleanName(name))
    ensures Text.Words(CleanName(name)) == Text.Words(name)
    ensures CleanName(name) == Text.Join(Text.Words(name), " ")
    ensures CleanName(CleanName(name)) == CleanName(name)
  {
    var ws := Text.Words(name);
    var j := Text.Join(ws, " ");
    JoinSingleSpaced(ws);
    assert j == [] || (!Text.IsSpace(j[0]) && !Text.IsSpace(j[|j| - 1]));
    Text.StripTrimmed(j);
    WordsOfJoin(ws);
  }

  // Scraping several pages ----------------------------------------------------

  /**
   * `scrape_multiple`: every URL scraped (concurrently, results in URL
   * order) and the failures dropped. `scrape` is `scrape_product`.
   */
  function ScrapeMultiple<T>(urls: seq<string>, scrape: string -> Option<T>): (r: seq<T>)
    ensures |r| <= |urls|
  {
    Seqs.MapSome(urls, scrape)
  }

  /**
   * The results are exactly the successful scrapes: each comes from one of
   * the URLs, each success is kept, all are kept when none fails, and
   * nothing comes back exactly when every scrape fails. They come in URL
   * order: the results of a split list are those of its first part followed
   * by those of the rest.
   */
  lemma ScrapeMultipleSpec<T>(urls: seq<string>, scrape: string -> Option<T>)
    ensures forall y :: y in ScrapeMultiple(urls, scrape) ==> exists i :: 0 <= i < |urls| && scrape(urls[i]) == Some(y)
    ensures forall i :: 0 <= i < |urls| && scrape(urls[i]).Some? ==> scrape(urls[i]).value in ScrapeMultiple(urls, scrape)
    ensures (forall i :: 0 <= i < |urls| ==> scrape(urls[i]).Some?) ==> |ScrapeMultiple(urls, scrape)| == |urls|
    ensures ScrapeMultiple(urls, scrape) == [] <==> forall i :: 0 <= i < |urls| ==> scrape(urls[i]).None?
    ensures forall a, b :: urls == a + b ==> ScrapeMultiple(urls, scrape) == ScrapeMultiple(a, scrape) + ScrapeMultiple(b, scrape)
  {
    forall a, b | urls == a + b
      ensures ScrapeMultiple(urls, scrape) == ScrapeMultiple(a, scrape) + ScrapeMultiple(b, scrape)
    {
      Seqs.MapSomeAppend(a, b, scrape);
    }
    Seqs.MapSomeFrom(urls, scrape);
    forall i | 0 <= i < |urls| && scrape(urls[i]).Some?
      ensures scrape(urls[i]).value in ScrapeMultiple(urls, scrape)
    {
      Seqs.MapSomeKeeps(urls, scrape, i);
    }
    if forall i :: 0 <= i < |urls| ==> scrape(urls[i]).Some? {
      Seqs.MapSomeTotal(urls, scrape);
    }
    Seqs.MapSomeEmpty(urls, scrape);
  }
}
