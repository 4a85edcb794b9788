/**
 * Sequence operations that the source writes as Python list comprehensions
 * and slices: filtering, the slice `s[:n]`, flattening, and the subsequence
 * relation they are specified by.
 */
module Seqs {
  import opened Wrappers

  /** `a` can be obtained from `b` by deleting elements (order is kept). */
  predicate IsSubsequence<T(==)>(a: seq<T>, b: seq<T>)
    decreases |b|
  {
    if a == [] then true
    else if b == [] then false
    else if a[0] == b[0] && IsSubsequence(a[1..], b[1..]) then true
    else IsSubsequence(a, b[1..])
  }

  lemma {:induction false} SubsequenceRefl<T>(a: seq<T>)
    ensures IsSubsequence(a, a)
    decreases |a|
  {
    if a != [] {
      SubsequenceRefl(a[1..]);
    }
  }

  lemma {:induction false} SubsequenceElems<T>(a: seq<T>, b: seq<T>)
    requires IsSubsequence(a, b)
    ensures |a| <= |b|
    ensures forall x :: x in a ==> x in b
    decreases |b|
  {
    if a != [] && b != [] {
      if a[0] == b[0] && IsSubsequence(a[1..], b[1..]) {
        SubsequenceElems(a[1..], b[1..]);
        assert a == [a[0]] + a[1..];
        assert b == [b[0]] + b[1..];
      } else {
        SubsequenceElems(a, b[1..]);
      }
    }
  }

  lemma {:induction false} SubsequenceTrans<T>(a: seq<T>, b: seq<T>, c: seq<T>)
    requires IsSubsequence(a, b) && IsSubsequence(b, c)
    ensures IsSubsequence(a, c)
    decreases |c|
  {
    if a == [] {
    } else if c == [] {
      SubsequenceElems(a, b);
    } else if b != [] && b[0] == c[0] && IsSubsequence(b[1..], c[1..]) {
      if a[0] == b[0] && IsSubsequence(a[1..], b[1..]) {
        SubsequenceTrans(a[1..], b[1..], c[1..]);
      } else {
        SubsequenceTrans(a, b[1..], c[1..]);
      }
    } else if b != [] {
      SubsequenceTrans(a, b, c[1..]);
    } else {
      SubsequenceElems(a, b);
    }
  }

  /** The elements of `s` that satisfy `f`, in order (`[x for x in s if f(x)]`). */
  function Filter<T>(s: seq<T>, f: T -> bool): (r: seq<T>)
    ensures |r| <= |s|
    decreases |s|
  {
    if s == [] then []
    else (if f(s[0]) then [s[0]] else []) + Filter(s[1..], f)
  }

  /** Every kept element satisfies `f`, and every element of `s` satisfying `f` is kept. */
  lemma {:induction false} FilterMembers<T>(s: seq<T>, f: T -> bool)
    ensures forall x :: x in Filter(s, f) <==> x in s && f(x)
    decreases |s|
  {
    if s != [] {
      FilterMembers(s[1..], f);
      assert s == [s[0]] + s[1..];
    }
  }

  lemma {:induction false} FilterAppend<T>(a: seq<T>, b: seq<T>, f: T -> bool)
    ensures Filter(a + b, f) == Filter(a, f) + Filter(b, f)
    decreases |a|
  {
    if a == [] {
      assert a + b == b;
    } else {
      var h := if f(a[0]) then [a[0]] else [];
      var ab := a + b;
      assert ab[0] == a[0] && ab[1..] == a[1..] + b;
      assert Filter(ab, f) == h + Filter(a[1..] + b, f);
      FilterAppend(a[1..], b, f);
      assert Filter(a, f) == h + Filter(a[1..], f);
    }
  }

  /** Filtering keeps exactly the occurrences that satisfy `f`, as a subsequence. */
  lemma {:induction false} FilterIsSubsequence<T>(s: seq<T>, f: T -> bool)
    ensures IsSubsequence(Filter(s, f), s)
    decreases |s|
  {
    if s != [] {
      FilterIsSubsequence(s[1..], f);
      var r := Filter(s, f);
      if f(s[0]) {
        assert r[1..] == Filter(s[1..], f);
      } else {
        assert r == Filter(s[1..], f);
        if r != [] {
          assert IsSubsequence(r, s[1..]);
          if r[0] == s[0] && IsSubsequence(r[1..], s[1..]) {
          }
        }
      }
    }
  }

  lemma {:induction false} FilterCounts<T>(s: seq<T>, f: T -> bool, x: T)
    ensures multiset(Filter(s, f))[x] == if f(x) then multiset(s)[x] else 0
    decreases |s|
  {
    if s != [] {
      FilterCounts(s[1..], f, x);
      assert s == [s[0]] + s[1..];
      assert multiset(s) == multiset([s[0]]) + multiset(s[1..]);
    }
  }

  lemma FilterCountsAll<T>(s: seq<T>, f: T -> bool)
    ensures forall x :: multiset(Filter(s, f))[x] == if f(x) then multiset(s)[x] else 0
  {
    forall x ensures multiset(Filter(s, f))[x] == if f(x) then multiset(s)[x] else 0 {
      FilterCounts(s, f, x);
    }
  }

  /** Filtering a sequence whose every element passes the test changes nothing. */
  lemma {:induction false} FilterKeepsAll<T>(s: seq<T>, f: T -> bool)
    requires forall i :: 0 <= i < |s| ==> f(s[i])
    ensures Filter(s, f) == s
    decreases |s|
  {
    if s != [] {
      assert f(s[0]);
      FilterKeepsAll(s[1..], f);
    }
  }

  /** Filtering twice with the same test is filtering once. */
  lemma {:induction false} FilterIdempotent<T>(s: seq<T>, f: T -> bool)
    ensures Filter(Filter(s, f), f) == Filter(s, f)
    decreases |s|
  {
    if s != [] {
      FilterIdempotent(s[1..], f);
      var r := Filter(s, f);
      if f(s[0]) {
        assert r[0] == s[0] && r[1..] == Filter(s[1..], f);
      } else {
        assert r == Filter(s[1..], f);
      }
    }
  }

  /** Filtering by `f` and then by `g` is filtering by their conjunction `h`. */
  lemma {:induction false} FilterFilter<T>(s: seq<T>, f: T -> bool, g: T -> bool, h: T -> bool)
    requires forall x :: h(x) == (f(x) && g(x))
    ensures Filter(Filter(s, f), g) == Filter(s, h)
    decreases |s|
  {
    if s != [] {
      FilterFilter(s[1..], f, g, h);
      var r := Filter(s, f);
      if f(s[0]) {
        assert r[0] == s[0] && r[1..] == Filter(s[1..], f);
      } else {
        assert r == Filter(s[1..], f);
      }
    }
  }

  /** Python's slice `s[:n]`: a negative `n` counts from the end. */
  function Take<T>(s: seq<T>, n: int): (r: seq<T>)
    ensures n >= 0 ==> |r| == if n <= |s| then n else |s|
    ensures n < 0 ==> |r| == if |s| + n >= 0 then |s| + n else 0
    ensures r <= s
  {
    if n >= 0 then (if n <= |s| then s[..n] else s)
    else (if |s| + n >= 0 then s[..|s| + n] else [])
  }

  /** A prefix of a subsequence is a subsequence. */
  lemma {:induction false} PrefixSubsequence<T>(a: seq<T>, b: seq<T>)
    requires a <= b
    ensures IsSubsequence(a, b)
    decreases |b|
  {
    if a != [] {
      assert a[0] == b[0];
      PrefixSubsequence(a[1..], b[1..]);
    }
  }

  /** Concatenation of a sequence of sequences, in order. */
  function Flatten<T>(ss: seq<seq<T>>): seq<T>
    decreases |ss|
  {
    if ss == [] then [] else ss[0] + Flatten(ss[1..])
  }

  lemma {:induction false} FlattenAppend<T>(ss: seq<seq<T>>, t: seq<T>)
    ensures Flatten(ss + [t]) == Flatten(ss) + t
    decreases |ss|
  {
    if ss == [] {
      assert [t][1..] == [];
    } else {
      assert (ss + [t])[1..] == ss[1..] + [t];
      FlattenAppend(ss[1..], t);
    }
  }

  /**
   * The loop `for x in xs: r = f(x); if r: out.append(r)`: the successful
   * results of `f`, in input order.
   */
  function MapSome<T, U>(xs: seq<T>, f: T -> Option<U>): (r: seq<U>)
    ensures |r| <= |xs|
    decreases |xs|
  {
    if xs == [] then []
    else (if f(xs[0]).Some? then [f(xs[0]).value] else []) + MapSome(xs[1..], f)
  }

  lemma {:induction false} MapSomeAppend<T, U>(xs: seq<T>, ys: seq<T>, f: T -> Option<U>)
    ensures MapSome(xs + ys, f) == MapSome(xs, f) + MapSome(ys, f)
    decreases |xs|
  {
    if xs == [] {
      assert xs + ys == ys;
    } else {
      var h := if f(xs[0]).Some? then [f(xs[0]).value] else [];
      assert (xs + ys)[0] == xs[0];
      assert (xs + ys)[1..] == xs[1..] + ys;
      MapSomeAppend(xs[1..], ys, f);
      assert MapSome(xs + ys, f) == h + MapSome(xs[1..] + ys, f);
      assert MapSome(xs, f) == h + MapSome(xs[1..], f);
      assert h + (MapSome(xs[1..], f) + MapSome(ys, f)) == (h + MapSome(xs[1..], f)) + MapSome(ys, f);
    }
  }

  /** One more input element adds its result, if any, at the end. */
  lemma MapSomeSnoc<T, U>(xs: seq<T>, x: T, f: T -> Option<U>)
    ensures MapSome(xs + [x], f) == MapSome(xs, f) + (if f(x).Some? then [f(x).value] else [])
  {
    MapSomeAppend(xs, [x], f);
    assert MapSome([x], f) == (if f(x).Some? then [f(x).value] else []) + MapSome([x][1..], f);
  }

  /** Every output is the result of some input element. */
  lemma {:induction false} MapSomeFrom<T, U>(xs: seq<T>, f: T -> Option<U>)
    ensures forall y :: y in MapSome(xs, f) ==> exists i :: 0 <= i < |xs| && f(xs[i]) == Some(y)
    decreases |xs|
  {
    if xs != [] {
      MapSomeFrom(xs[1..], f);
      forall y | y in MapSome(xs, f)
        ensures exists i :: 0 <= i < |xs| && f(xs[i]) == Some(y)
      {
        if f(xs[0]) == Some(y) {
          assert f(xs[0]) == Some(y);
        } else {
          assert y in MapSome(xs[1..], f);
          var i :| 0 <= i < |xs[1..]| && f(xs[1..][i]) == Some(y);
          assert f(xs[i + 1]) == Some(y);
        }
      }
    }
  }

  /** Every successful result of an input element is in the output. */
  lemma {:induction false} MapSomeKeeps<T, U>(xs: seq<T>, f: T -> Option<U>, i: nat)
    requires i < |xs| && f(xs[i]).Some?
    ensures f(xs[i]).value in MapSome(xs, f)
    decreases i
  {
    if i > 0 {
      MapSomeKeeps(xs[1..], f, i - 1);
      assert xs[1..][i - 1] == xs[i];
    }
  }

  /** When no element fails, nothing is dropped. */
  lemma {:induction false} MapSomeTotal<T, U>(xs: seq<T>, f: T -> Option<U>)
    requires forall i :: 0 <= i < |xs| ==> f(xs[i]).Some?
    ensures |MapSome(xs, f)| == |xs|
    ensures forall i :: 0 <= i < |xs| ==> MapSome(xs, f)[i] == f(xs[i]).value
    decreases |xs|
  {
    if xs != [] {
      assert f(xs[0]).Some?;
      forall i | 0 <= i < |xs[1..]| ensures f(xs[1..][i]).Some? {
        assert xs[1..][i] == xs[i + 1];
      }
      MapSomeTotal(xs[1..], f);
    }
  }

  /** Nothing comes out exactly when every element fails. */
  lemma MapSomeEmpty<T, U>(xs: seq<T>, f: T -> Option<U>)
    ensures MapSome(xs, f) == [] <==> forall i :: 0 <= i < |xs| ==> f(xs[i]).None?
  {
    forall i | 0 <= i < |xs| && f(xs[i]).Some?
      ensures MapSome(xs, f) != []
    {
      MapSomeKeeps(xs, f, i);
    }
    if MapSome(xs, f) != [] {
      MapSomeFrom(xs, f);
      assert MapSome(xs, f)[0] in MapSome(xs, f);
    }
  }
}
