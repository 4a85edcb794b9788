/**
 * The Python `str` operations the source relies on: `strip`, `rstrip`,
 * `lower`, `startswith`, `in`, `replace`, `split()` and `join`.
 *
 * Whitespace is Python's `str.isspace` restricted to Latin-1, and `lower`
 * is Python's mapping restricted to ASCII and Latin-1 capitals.
 */
module Text {

  predicate IsSpace(c: char) {
    c == ' ' || c == '\t' || c == '\n' || c == '\r' || c == '\U{000B}' || c == '\U{000C}'
    || ('\U{001C}' <= c <= '\U{001F}') || c == '\U{0085}' || c == '\U{00A0}'
  }

  /** Drops the leading characters that satisfy `p`. */
  function LStripBy(s: string, p: char -> bool): (r: string)
    ensures |r| <= |s| && r == s[|s| - |r|..]
    ensures r == [] || !p(r[0])
    ensures forall i :: 0 <= i < |s| - |r| ==> p(s[i])
    decreases |s|
  {
    if s != [] && p(s[0]) then
      var t := s[1..];
      assert forall i :: 0 < i < |s| ==> s[i] == t[i - 1];
      LStripBy(t, p)
    else s
  }

  /** Drops the trailing characters that satisfy `p`. */
  function RStripBy(s: string, p: char -> bool): (r: string)
    ensures |r| <= |s| && r == s[..|r|]
    ensures r == [] || !p(r[|r| - 1])
    ensures forall i :: |r| <= i < |s| ==> p(s[i])
    decreases |s|
  {
    if s != [] && p(s[|s| - 1]) then RStripBy(s[..|s| - 1], p) else s
  }

  /** Python's `s.strip()`. */
  function Strip(s: string): string {
    RStripBy(LStripBy(s, IsSpace), IsSpace)
  }

  /** `Strip(s)` is empty exactly when `s` is all whitespace. */
  lemma StripEmptyIffBlank(s: string)
    ensures Strip(s) == [] <==> forall i :: 0 <= i < |s| ==> IsSpace(s[i])
  {
    var l := LStripBy(s, IsSpace);
    if l != [] {
      assert !IsSpace(l[0]);
      assert Strip(s) != [];
    }
    if forall i :: 0 <= i < |s| ==> IsSpace(s[i]) {
      if l != [] {
        assert l[0] == s[|s| - |l|];
      }
    }
  }

  /** A string that neither starts nor ends with whitespace is its own strip. */
  lemma StripTrimmed(s: string)
    requires s == [] || (!IsSpace(s[0]) && !IsSpace(s[|s| - 1]))
    ensures Strip(s) == s
  {
    assert LStripBy(s, IsSpace) == s;
  }

  /** Stripping keeps the characters between the first and last non-space ones. */
  lemma StripIdempotent(s: string)
    ensures Strip(Strip(s)) == Strip(s)
  {
    var r := Strip(s);
    var l := LStripBy(s, IsSpace);
    assert r == l[..|r|];
    if r != [] {
      assert r[0] == l[0];
      assert LStripBy(r, IsSpace) == r;
    }
  }

  /** A non-empty stripped string starts and ends with a non-space character. */
  lemma StripEdges(s: string)
    ensures var r := Strip(s); r == [] || (!IsSpace(r[0]) && !IsSpace(r[|r| - 1]))
  {
    var l := LStripBy(s, IsSpace);
    var r := Strip(s);
    if r != [] {
      assert r == l[..|r|];
      assert r[0] == l[0];
    }
  }

  /** A pattern whose first character does not occur in `s` does not occur in `s`. */
  lemma {:induction false} FirstCharAbsent(pat: string, s: string)
    requires pat != [] && pat[0] !in s
    ensures !IsSubstring(pat, s)
    decreases |s|
  {
    if s != [] {
      assert pat[0] != s[0];
      assert pat[0] !in s[1..];
      FirstCharAbsent(pat, s[1..]);
    }
  }

  /** Python's `str.lower()` on ASCII and Latin-1 letters. */
  function LowerChar(c: char): char {
    if 'A' <= c <= 'Z' || ('\U{00C0}' <= c <= '\U{00DE}' && c != '\U{00D7}')
    then (c as int + 32) as char
    else c
  }

  function Lower(s: string): (r: string)
    ensures |r| == |s|
    ensures forall i :: 0 <= i < |s| ==> r[i] == LowerChar(s[i])
  {
    seq(|s|, i requires 0 <= i < |s| => LowerChar(s[i]))
  }

  predicate StartsWith(s: string, prefix: string) {
    |prefix| <= |s| && s[..|prefix|] == prefix
  }

  /** Python's `needle in hay` on strings. */
  predicate IsSubstring(needle: string, hay: string)
    decreases |hay|
  {
    StartsWith(hay, needle) || (hay != [] && IsSubstring(needle, hay[1..]))
  }

  /** `needle` occurs in `hay` starting at position `k`. */
  predicate OccursAt(needle: string, hay: string, k: int) {
    0 <= k <= |hay| - |needle| && hay[k..k + |needle|] == needle
  }

  /** `IsSubstring` holds exactly when there is an occurrence at some position. */
  lemma {:induction false} SubstringAt(needle: string, hay: string)
    ensures IsSubstring(needle, hay) <==> exists k :: OccursAt(needle, hay, k)
    decreases |hay|
  {
    if hay != [] {
      SubstringAt(needle, hay[1..]);
      if StartsWith(hay, needle) {
        assert OccursAt(needle, hay, 0);
      } else if IsSubstring(needle, hay[1..]) {
        var k :| OccursAt(needle, hay[1..], k);
        assert hay[k + 1..k + 1 + |needle|] == hay[1..][k..k + |needle|];
        assert OccursAt(needle, hay, k + 1);
      }
      if !StartsWith(hay, needle) && exists k :: OccursAt(needle, hay, k) {
        var k :| OccursAt(needle, hay, k);
        assert k != 0;
        assert hay[1..][k - 1..k - 1 + |needle|] == hay[k..k + |needle|];
        assert OccursAt(needle, hay[1..], k - 1);
      }
    } else {
      if needle == [] {
        assert StartsWith(hay, needle) && OccursAt(needle, hay, 0);
      } else {
        forall k ensures !OccursAt(needle, hay, k) { }
      }
    }
  }

  /** Python's `s.replace(pat, rep)`: non-overlapping occurrences, left to right. */
  function ReplaceAll(s: string, pat: string, rep: string): (r: string)
    requires |pat| > 0
    decreases |s|
  {
    if |s| < |pat| then s
    else if s[..|pat|] == pat then rep + ReplaceAll(s[|pat|..], pat, rep)
    else [s[0]] + ReplaceAll(s[1..], pat, rep)
  }

  /** `Remove(s, pat)` is `s.replace(pat, '')`. */
  function Remove(s: string, pat: string): (r: string)
    requires |pat| > 0
    ensures |r| <= |s|
    decreases |s|
  {
    if |s| < |pat| then s
    else if s[..|pat|] == pat then Remove(s[|pat|..], pat)
    else [s[0]] + Remove(s[1..], pat)
  }

  /** Removing a single character deletes every occurrence of it and nothing else. */
  lemma {:induction false} RemoveChar(s: string, c: char)
    ensures Remove(s, [c]) == FilterChars(s, c)
    decreases |s|
  {
    if s != [] {
      RemoveChar(s[1..], c);
    }
  }

  /** The characters of `s` other than `c`, in order. */
  function FilterChars(s: string, c: char): (r: string)
    decreases |s|
  {
    if s == [] then [] else (if s[0] == c then [] else [s[0]]) + FilterChars(s[1..], c)
  }

  /** Filtering out a character that does not occur changes nothing. */
  lemma {:induction false} FilterCharsAbsent(s: string, c: char)
    requires c !in s
    ensures FilterChars(s, c) == s
    decreases |s|
  {
    if s != [] {
      assert c !in s[1..];
      FilterCharsAbsent(s[1..], c);
    }
  }

  /** `(pat + t).replace(pat, '')` drops the leading occurrence and continues with `t`. */
  lemma RemoveLeading(pat: string, t: string)
    requires |pat| > 0
    ensures Remove(pat + t, pat) == Remove(t, pat)
  {
    var s := pat + t;
    assert s[..|pat|] == pat;
    assert s[|pat|..] == t;
  }

  /** A first character that cannot start `pat` is kept. */
  lemma RemoveCons(c: char, t: string, pat: string)
    requires |pat| > 0 && c != pat[0]
    ensures Remove([c] + t, pat) == [c] + Remove(t, pat)
  {
    var s := [c] + t;
    assert s[1..] == t;
    if |s| >= |pat| {
      assert s[..|pat|][0] == c;
    }
  }

  /** A first character that does not start the pattern survives its removal. */
  lemma RemoveKeepsHead(s: string, pat: string)
    requires |pat| > 0 && s != [] && s[0] != pat[0]
    ensures Remove(s, pat) != [] && Remove(s, pat)[0] == s[0]
  {
    assert s == [s[0]] + s[1..];
    RemoveCons(s[0], s[1..], pat);
  }

  /** A first character that is not whitespace survives `strip()`. */
  lemma StripKeepsHead(s: string)
    requires s != [] && !IsSpace(s[0])
    ensures Strip(s) != [] && Strip(s)[0] == s[0]
  {
    var l := LStripBy(s, IsSpace);
    assert l == s;
  }

  /** A pattern whose first character does not occur is not removed anywhere. */
  lemma {:induction false} RemoveAbsent(s: string, pat: string)
    requires |pat| > 0 && pat[0] !in s
    ensures Remove(s, pat) == s
    decreases |s|
  {
    if |s| >= |pat| {
      assert s[..|pat|][0] == s[0] != pat[0];
      assert pat[0] !in s[1..];
      RemoveAbsent(s[1..], pat);
    }
  }

  /** A pattern that does not occur is not replaced. */
  lemma {:induction false} ReplaceAbsent(s: string, pat: string, rep: string)
    requires |pat| > 0 && pat[0] !in s
    ensures ReplaceAll(s, pat, rep) == s
    decreases |s|
  {
    if |s| >= |pat| {
      assert s[..|pat|][0] == s[0] != pat[0];
      assert pat[0] !in s[1..];
      ReplaceAbsent(s[1..], pat, rep);
    }
  }

  /** Replacing by a text of the same length keeps the length. */
  lemma {:induction false} ReplaceKeepsLength(s: string, pat: string, rep: string)
    requires |pat| > 0 && |rep| == |pat|
    ensures |ReplaceAll(s, pat, rep)| == |s|
    decreases |s|
  {
    if |s| >= |pat| {
      if s[..|pat|] == pat {
        ReplaceKeepsLength(s[|pat|..], pat, rep);
      } else {
        ReplaceKeepsLength(s[1..], pat, rep);
      }
    }
  }

  lemma {:induction false} SubstringFits(needle: string, hay: string)
    ensures IsSubstring(needle, hay) ==> |needle| <= |hay|
    decreases |hay|
  {
    if hay != [] {
      SubstringFits(needle, hay[1..]);
    }
  }

  /**
   * A prefix free of the pattern's first character is only seen after
   * replacement when it was there before.
   */
  lemma {:induction false} ReplacedPrefix(u: string, pat: string, rep: string, w: string)
    requires |pat| > 0 && |rep| > 0 && rep[0] == pat[0] && pat[0] !in w
    ensures StartsWith(ReplaceAll(u, pat, rep), w) ==> StartsWith(u, w)
    decreases |w|
  {
    var r := ReplaceAll(u, pat, rep);
    if w != [] && |u| >= |pat| {
      if u[..|pat|] == pat {
        assert r[0] == rep[0];
        assert w[0] in w;
      } else if StartsWith(r, w) {
        var r1 := ReplaceAll(u[1..], pat, rep);
        assert r == [u[0]] + r1;
        assert pat[0] !in w[1..];
        ReplacedPrefix(u[1..], pat, rep, w[1..]);
        assert r1[..|w| - 1] == r[1..|w|] == w[1..];
        assert u[..|w|] == [u[0]] + u[1..][..|w| - 1];
      }
    }
  }

  /** A text free of the pattern's first character, before a text without the pattern. */
  lemma {:induction false} NoneAfterPrefix(w: string, t: string, pat: string)
    requires |pat| > 0 && pat[0] !in w && !IsSubstring(pat, t)
    ensures !IsSubstring(pat, w + t)
    decreases |w|
  {
    if w == [] {
      assert w + t == t;
    } else {
      var s := w + t;
      assert s[0] == w[0];
      assert pat[0] !in w[1..];
      assert s[1..] == w[1..] + t;
      NoneAfterPrefix(w[1..], t, pat);
      if |pat| <= |s| {
        assert s[..|pat|][0] == w[0];
      }
    }
  }

  /**
   * After `s.replace(pat, rep)` no occurrence of `pat` is left, when `rep` has
   * the length of `pat`, differs from it, starts with the same character and
   * that character occurs nowhere else in either.
   */
  lemma {:induction false} ReplaceLeavesNone(s: string, pat: string, rep: string)
    requires |pat| > 0 && |rep| == |pat| && rep != pat && rep[0] == pat[0]
    requires pat[0] !in pat[1..] && pat[0] !in rep[1..]
    ensures !IsSubstring(pat, ReplaceAll(s, pat, rep))
    decreases |s|
  {
    var r := ReplaceAll(s, pat, rep);
    if |s| < |pat| {
      SubstringFits(pat, r);
    } else if s[..|pat|] == pat {
      var r1 := ReplaceAll(s[|pat|..], pat, rep);
      ReplaceLeavesNone(s[|pat|..], pat, rep);
      NoneAfterPrefix(rep[1..], r1, pat);
      assert r == rep + r1;
      assert r[..|pat|] == rep;
      assert r[1..] == rep[1..] + r1;
    } else {
      var r2 := ReplaceAll(s[1..], pat, rep);
      ReplaceLeavesNone(s[1..], pat, rep);
      assert r == [s[0]] + r2;
      assert r[1..] == r2;
      ReplacedPrefix(s[1..], pat, rep, pat[1..]);
      assert s[..|pat|] == [s[0]] + s[1..][..|pat| - 1];
      if |r| >= |pat| {
        assert r[..|pat|] == [s[0]] + r2[..|pat| - 1];
      }
    }
  }

  /** Position `i` of `s` lies inside an occurrence of `pat`. */
  predicate Covered(pat: string, s: string, i: int) {
    exists k :: OccursAt(pat, s, k) && k <= i < k + |pat|
  }

  /** A pattern whose first character occurs nowhere else in it cannot occur at two overlapping places. */
  lemma NoOverlap(pat: string, s: string)
    requires |pat| > 0 && pat[0] !in pat[1..] && |pat| <= |s| && s[..|pat|] == pat
    ensures forall k :: 0 < k < |pat| ==> !OccursAt(pat, s, k)
  {
    forall k | 0 < k < |pat|
      ensures !OccursAt(pat, s, k)
    {
      assert s[k] == pat[k] == pat[1..][k - 1];
    }
  }

  /** Occurrences in a suffix `s[n..]` are the occurrences in `s` from position `n` on. */
  lemma ShiftOccurrences(pat: string, s: string, n: nat)
    requires n <= |s|
    ensures forall k :: OccursAt(pat, s, k) && k >= n ==> OccursAt(pat, s[n..], k - n)
    ensures forall k :: OccursAt(pat, s[n..], k) ==> OccursAt(pat, s, k + n)
  {
    var u := s[n..];
    forall k | OccursAt(pat, s, k) && k >= n
      ensures OccursAt(pat, u, k - n)
    {
      assert u[k - n..k - n + |pat|] == s[k..k + |pat|];
    }
    forall k | OccursAt(pat, u, k)
      ensures OccursAt(pat, s, k + n)
    {
      assert s[k + n..k + n + |pat|] == u[k..k + |pat|];
    }
  }

  /** How many characters `ReplaceAll` consumes in its first step on `s`. */
  function ReplaceStep(s: string, pat: string): (n: nat)
    requires |pat| > 0 && |s| >= |pat|
    ensures 1 <= n <= |s|
  {
    if s[..|pat|] == pat then |pat| else 1
  }

  /** `ReplaceAll`'s first step, for a replacement of the pattern's length. */
  lemma ReplaceUnfold(s: string, pat: string, rep: string)
    requires |pat| > 0 && |rep| == |pat| && |s| >= |pat|
    ensures var n := ReplaceStep(s, pat); var r := ReplaceAll(s, pat, rep); var r1 := ReplaceAll(s[n..], pat, rep);
      |r| == |s| && |r1| == |s| - n
      && (forall i :: n <= i < |s| ==> r[i] == r1[i - n])
      && (s[..|pat|] == pat ==> r[..|pat|] == rep)
      && (s[..|pat|] != pat ==> r[0] == s[0])
  {
    var n := ReplaceStep(s, pat);
    ReplaceKeepsLength(s, pat, rep);
    ReplaceKeepsLength(s[n..], pat, rep);
    if s[..|pat|] == pat {
      assert ReplaceAll(s, pat, rep) == rep + ReplaceAll(s[n..], pat, rep);
    } else {
      assert ReplaceAll(s, pat, rep) == [s[0]] + ReplaceAll(s[n..], pat, rep);
    }
  }

  /** A slice of a suffix is a slice of the whole. */
  lemma SliceOfSuffix(s: string, n: int, a: int, b: int)
    requires 0 <= n <= |s| && 0 <= a <= b <= |s| - n
    ensures s[n..][a..b] == s[n + a..n + b]
  {
  }

  /** After the first step, position `i` of the result is position `i - n` of the rest's result. */
  lemma ReplaceShift(s: string, pat: string, rep: string, i: int)
    requires |pat| > 0 && |rep| == |pat| && |s| >= |pat| && ReplaceStep(s, pat) <= i < |s|
    ensures |ReplaceAll(s, pat, rep)| == |s| && |ReplaceAll(s[ReplaceStep(s, pat)..], pat, rep)| == |s| - ReplaceStep(s, pat)
    ensures ReplaceAll(s, pat, rep)[i] == ReplaceAll(s[ReplaceStep(s, pat)..], pat, rep)[i - ReplaceStep(s, pat)]
  {
    var n := ReplaceStep(s, pat);
    ReplaceKeepsLength(s, pat, rep);
    ReplaceKeepsLength(s[n..], pat, rep);
    if s[..|pat|] == pat {
      assert ReplaceAll(s, pat, rep) == rep + ReplaceAll(s[n..], pat, rep);
    } else {
      assert ReplaceAll(s, pat, rep) == [s[0]] + ReplaceAll(s[n..], pat, rep);
    }
  }

  /** An occurrence at the front is overwritten by `rep`. */
  lemma ReplaceHead(s: string, pat: string, rep: string, j: int)
    requires |pat| > 0 && |rep| == |pat| && |s| >= |pat| && s[..|pat|] == pat && 0 <= j < |pat|
    ensures |ReplaceAll(s, pat, rep)| == |s|
    ensures ReplaceAll(s, pat, rep)[j] == rep[j]
  {
    ReplaceKeepsLength(s, pat, rep);
    assert ReplaceAll(s, pat, rep) == rep + ReplaceAll(s[|pat|..], pat, rep);
  }

  /** One position of an occurrence, overwritten by the matching character of `rep`. */
  lemma {:induction false} ReplaceOverwritesAt(s: string, pat: string, rep: string, k: int, j: int)
    requires |pat| > 0 && |rep| == |pat| && pat[0] !in pat[1..]
    requires OccursAt(pat, s, k) && 0 <= j < |pat|
    ensures |ReplaceAll(s, pat, rep)| == |s|
    ensures ReplaceAll(s, pat, rep)[k + j] == rep[j]
    decreases |s|
  {
    ReplaceKeepsLength(s, pat, rep);
    if s[..|pat|] == pat && k < |pat| {
      NoOverlap(pat, s);
      assert k == 0;
      ReplaceHead(s, pat, rep, j);
    } else {
      var n := ReplaceStep(s, pat);
      assert OccursAt(pat, s, 0) ==> s[..|pat|] == pat by {
        assert s[0..|pat|] == s[..|pat|];
      }
      assert k >= n;
      var u := s[n..];
      SliceOfSuffix(s, n, k - n, k - n + |pat|);
      ReplaceOverwritesAt(u, pat, rep, k - n, j);
      ReplaceShift(s, pat, rep, k + j);
    }
  }

  /**
   * Replacing by a text of the pattern's length, for a pattern that cannot
   * overlap itself: every occurrence of `pat` is overwritten by `rep`.
   */
  lemma ReplaceOverwrites(s: string, pat: string, rep: string)
    requires |pat| > 0 && |rep| == |pat| && pat[0] !in pat[1..]
    ensures |ReplaceAll(s, pat, rep)| == |s|
    ensures forall k, j :: OccursAt(pat, s, k) && 0 <= j < |pat| ==> ReplaceAll(s, pat, rep)[k + j] == rep[j]
  {
    ReplaceKeepsLength(s, pat, rep);
    forall k, j | OccursAt(pat, s, k) && 0 <= j < |pat|
      ensures ReplaceAll(s, pat, rep)[k + j] == rep[j]
    {
      ReplaceOverwritesAt(s, pat, rep, k, j);
    }
  }

  /** Under the same conditions, every position outside the occurrences keeps its character. */
  lemma {:induction false} ReplaceKeeps(s: string, pat: string, rep: string)
    requires |pat| > 0 && |rep| == |pat| && pat[0] !in pat[1..]
    ensures |ReplaceAll(s, pat, rep)| == |s|
    ensures forall i :: 0 <= i < |s| && !Covered(pat, s, i) ==> ReplaceAll(s, pat, rep)[i] == s[i]
    decreases |s|
  {
    ReplaceKeepsLength(s, pat, rep);
    if |s| >= |pat| {
      var n := ReplaceStep(s, pat);
      var u := s[n..];
      ReplaceUnfold(s, pat, rep);
      ReplaceKeeps(u, pat, rep);
      ShiftOccurrences(pat, s, n);
      forall i | 0 <= i < |s| && !Covered(pat, s, i)
        ensures ReplaceAll(s, pat, rep)[i] == s[i]
      {
        if s[..|pat|] == pat && i < n {
          assert OccursAt(pat, s, 0);
        } else if i >= n {
          assert !Covered(pat, u, i - n);
          assert s[i] == u[i - n];
        }
      }
    }
  }

  /**
   * A replacement that changes one position `d` of the pattern, whose
   * character occurs nowhere else in it, changes exactly the character at
   * offset `d` of every occurrence.
   */
  lemma ReplaceOnePosition(s: string, pat: string, rep: string, d: int, i: int)
    requires |pat| > 0 && |rep| == |pat| && pat[0] !in pat[1..]
    requires 0 <= d < |pat| && forall j :: 0 <= j < |pat| && j != d ==> rep[j] == pat[j] && pat[j] != pat[d]
    requires 0 <= i < |s|
    ensures |ReplaceAll(s, pat, rep)| == |s|
    ensures ReplaceAll(s, pat, rep)[i] == if OccursAt(pat, s, i - d) then rep[d] else s[i]
  {
    ReplaceOverwrites(s, pat, rep);
    ReplaceKeeps(s, pat, rep);
    var r := ReplaceAll(s, pat, rep);
    if OccursAt(pat, s, i - d) {
      assert r[(i - d) + d] == rep[d];
    } else if Covered(pat, s, i) {
      var k :| OccursAt(pat, s, k) && k <= i < k + |pat|;
      assert r[k + (i - k)] == rep[i - k];
      assert s[i] == s[k..k + |pat|][i - k] == pat[i - k];
      assert i - k != d;
    }
  }

  lemma {:induction false} FilterCharsAppend(a: string, b: string, c: char)
    ensures FilterChars(a + b, c) == FilterChars(a, c) + FilterChars(b, c)
    decreases |a|
  {
    if a == [] {
      assert a + b == b;
    } else {
      assert (a + b)[0] == a[0];
      assert (a + b)[1..] == a[1..] + b;
      FilterCharsAppend(a[1..], b, c);
    }
  }

  /** Filtering `a + [c] + b` by `c` filters the two sides. */
  lemma FilterCharsSkip(a: string, b: string, c: char)
    ensures FilterChars(a + [c] + b, c) == FilterChars(a, c) + FilterChars(b, c)
  {
    FilterCharsAppend(a + [c], b, c);
    FilterCharsDropLast(a, c);
  }

  lemma FilterCharsDropLast(a: string, c: char)
    ensures FilterChars(a + [c], c) == FilterChars(a, c)
  {
    FilterCharsAppend(a, [c], c);
    assert FilterChars([c], c) == [];
  }

  /** Deleting the only occurrences of `c`, one between `a` and `b`. */
  lemma RemoveBetween(a: string, b: string, c: char)
    requires c !in a && c !in b
    ensures Remove(a + [c] + b, [c]) == a + b
  {
    RemoveChar(a + [c] + b, c);
    FilterCharsSkip(a, b, c);
    FilterCharsAbsent(a, c);
    FilterCharsAbsent(b, c);
  }

  /** Stripping a string with one leading space and no whitespace at its ends. */
  lemma StripLeadingSpace(d: string)
    requires d == [] || (!IsSpace(d[0]) && !IsSpace(d[|d| - 1]))
    ensures Strip([' '] + d) == d
  {
    var s := [' '] + d;
    assert s[1..] == d;
    assert LStripBy(s, IsSpace) == LStripBy(d, IsSpace);
    StripTrimmed(d);
  }

  /** The longest prefix of `s` without whitespace. */
  function Word(s: string): (w: string)
    ensures w <= s
    ensures forall i :: 0 <= i < |w| ==> !IsSpace(w[i])
    ensures |w| < |s| ==> IsSpace(s[|w|])
    decreases |s|
  {
    if s == [] || IsSpace(s[0]) then [] else [s[0]] + Word(s[1..])
  }

  /** Python's `s.split()`: the maximal runs of non-whitespace characters. */
  function Words(s: string): (ws: seq<string>)
    ensures forall k :: 0 <= k < |ws| ==> ws[k] != [] && forall i :: 0 <= i < |ws[k]| ==> !IsSpace(ws[k][i])
    decreases |s|
  {
    var t := LStripBy(s, IsSpace);
    if t == [] then []
    else
      var w := Word(t);
      [w] + Words(t[|w|..])
  }

  /** Python's `sep.join(ws)`. */
  function Join(ws: seq<string>, sep: string): string
    decreases |ws|
  {
    if ws == [] then []
    else if |ws| == 1 then ws[0]
    else ws[0] + sep + Join(ws[1..], sep)
  }

  /** Python's `s.split(sep)` for a one-character separator: always at least one piece. */
  function Split(s: string, sep: char): (parts: seq<string>)
    ensures |parts| >= 1
    ensures forall k :: 0 <= k < |parts| ==> sep !in parts[k]
    decreases |s|
  {
    if sep !in s then [s]
    else
      var i := IndexOf(s, sep);
      [s[..i]] + Split(s[i + 1..], sep)
  }

  /** Position of the first `c` in `s`. */
  function IndexOf(s: string, c: char): (i: nat)
    requires c in s
    ensures i < |s| && s[i] == c && c !in s[..i]
    decreases |s|
  {
    if s[0] == c then 0 else 1 + IndexOf(s[1..], c)
  }
}
