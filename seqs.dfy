/** Order-preserving selection over sequences: the model of JavaScript's
    `Array.prototype.filter`, which the store uses for deletion, search and
    the favourites view. */
module Seqs {

  /** `r` can be obtained from `s` by deleting elements, so the elements `r`
      keeps appear in the same relative order as in `s`. */
  ghost predicate IsSubsequence<T>(r: seq<T>, s: seq<T>)
    decreases |s|
  {
    || r == []
    || (s != [] && r[0] == s[0] && IsSubsequence(r[1..], s[1..]))
    || (s != [] && IsSubsequence(r, s[1..]))
  }

  /** `s.filter(p)`: the elements of `s` that satisfy `p`, in the order of `s`. */
  function Filter<T(!new)>(p: T -> bool, s: seq<T>): (r: seq<T>)
    ensures |r| <= |s|
    ensures forall i :: 0 <= i < |r| ==> p(r[i])
  {
    if s == [] then []
    else if p(s[0]) then [s[0]] + Filter(p, s[1..])
    else Filter(p, s[1..])
  }

  /** What `Filter` selects: every element of `s` that satisfies `p`, as many
      times as it occurs in `s`, and nothing else, kept in the order of `s`. */
  lemma {:induction false} FilterSelects<T(!new)>(p: T -> bool, s: seq<T>)
    ensures forall x :: multiset(Filter(p, s))[x] == if p(x) then multiset(s)[x] else 0
    ensures IsSubsequence(Filter(p, s), s)
  {
    if s != [] {
      var rest := Filter(p, s[1..]);
      FilterSelects(p, s[1..]);
      assert s == [s[0]] + s[1..];
      if p(s[0]) {
        assert ([s[0]] + rest)[1..] == rest;
      }
    }
  }

  /** Membership in a filtered sequence: exactly the members of `s` that
      satisfy `p`. */
  lemma FilterMembers<T(!new)>(p: T -> bool, s: seq<T>, x: T)
    ensures x in Filter(p, s) <==> x in s && p(x)
  {
    FilterSelects(p, s);
    assert x in Filter(p, s) <==> multiset(Filter(p, s))[x] > 0;
    assert x in s <==> multiset(s)[x] > 0;
  }

  /** Filtering with a predicate every element satisfies changes nothing
      (`notes.filter` keeps an array whose every note survives). */
  lemma {:induction false} FilterAll<T(!new)>(p: T -> bool, s: seq<T>)
    requires forall i :: 0 <= i < |s| ==> p(s[i])
    ensures Filter(p, s) == s
  {
    if s != [] {
      FilterAll(p, s[1..]);
      assert s == [s[0]] + s[1..];
    }
  }

  /** The filter drops something exactly when some element fails `p`. */
  lemma {:induction false} FilterShorter<T(!new)>(p: T -> bool, s: seq<T>)
    ensures |Filter(p, s)| < |s| <==> exists i :: 0 <= i < |s| && !p(s[i])
  {
    if s != [] {
      FilterShorter(p, s[1..]);
      if exists i :: 0 <= i < |s[1..]| && !p(s[1..][i]) {
        var i :| 0 <= i < |s[1..]| && !p(s[1..][i]);
        assert !p(s[i + 1]);
      }
      if exists i :: 0 <= i < |s| && !p(s[i]) {
        var i :| 0 <= i < |s| && !p(s[i]);
        if i > 0 { assert !p(s[1..][i - 1]); }
      }
    }
  }

  /** Filtering a concatenation filters each part. */
  lemma {:induction false} FilterAppend<T(!new)>(p: T -> bool, a: seq<T>, b: seq<T>)
    ensures Filter(p, a + b) == Filter(p, a) + Filter(p, b)
  {
    if a != [] {
      assert (a + b)[0] == a[0];
      assert (a + b)[1..] == a[1..] + b;
      FilterAppend(p, a[1..], b);
    } else {
      assert a + b == b;
    }
  }
}
