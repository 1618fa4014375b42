/** Optional values, for request parameters and nullable columns. */
module Wrappers {
  datatype Option<+T> = None | Some(value: T)

  /** A text request parameter takes effect when it is present and not
      empty; an empty value is treated like a missing one. */
  predicate Supplied(param: Option<string>) {
    param.Some? && param.value != ""
  }
}

/** Query-set operations on rows held as sequences in table order: the
    ORM's `.filter(...)`, slicing, and the subsequence relation that says a
    result keeps the input's order and adds nothing. */
module Seqs {

  function Min(a: int, b: int): int { if a <= b then a else b }

  /** `r` is obtained from `s` by deleting elements. */
  predicate IsSubsequence<T(==)>(r: seq<T>, s: seq<T>)
    decreases |s|
  {
    r == [] || (s != [] && ((r[0] == s[0] && IsSubsequence(r[1..], s[1..])) || IsSubsequence(r, s[1..])))
  }

  lemma {:induction false} SubsequenceMembers<T>(r: seq<T>, s: seq<T>)
    requires IsSubsequence(r, s)
    ensures |r| <= |s|
    ensures forall x :: x in r ==> x in s
    ensures multiset(r) <= multiset(s)
    decreases |s|
  {
    if r != [] {
      if r[0] == s[0] && IsSubsequence(r[1..], s[1..]) {
        SubsequenceMembers(r[1..], s[1..]);
        assert r == [r[0]] + r[1..] && s == [s[0]] + s[1..];
      } else {
        SubsequenceMembers(r, s[1..]);
        assert s == [s[0]] + s[1..];
      }
    }
  }

  lemma {:induction false} SubsequenceTransitive<T>(a: seq<T>, b: seq<T>, c: seq<T>)
    requires IsSubsequence(a, b) && IsSubsequence(b, c)
    ensures IsSubsequence(a, c)
    decreases |c|
  {
    if a != [] {
      if IsSubsequence(b, c[1..]) {
        SubsequenceTransitive(a, b, c[1..]);
      } else if a[0] == b[0] && IsSubsequence(a[1..], b[1..]) {
        SubsequenceTransitive(a[1..], b[1..], c[1..]);
      } else {
        SubsequenceTransitive(a, b[1..], c[1..]);
      }
    }
  }

  lemma {:induction false} PrefixIsSubsequence<T>(s: seq<T>, k: nat)
    requires k <= |s|
    ensures IsSubsequence(s[..k], s)
    decreases |s|
  {
    if k > 0 {
      PrefixIsSubsequence(s[1..], k - 1);
      assert s[..k][1..] == s[1..][..k - 1];
    }
  }

  /** The rows of `s` that satisfy `keep`, in their original order. */
  function Where<T(==)>(s: seq<T>, keep: T -> bool): (r: seq<T>)
    ensures IsSubsequence(r, s)
    ensures forall i :: 0 <= i < |r| ==> keep(r[i])
    ensures forall x :: x in s && keep(x) ==> x in r
    ensures forall x :: x in s ==> multiset(r)[x] == if keep(x) then multiset(s)[x] else 0
    decreases |s|
  {
    if s == [] then []
    else
      var rest := Where(s[1..], keep);
      var r := if keep(s[0]) then [s[0]] + rest else rest;
      WhereStep(s, keep, rest, r);
      SubsequenceMembers(rest, s[1..]);
      WhereCountStep(s, keep, rest, r);
      r
  }

  /** The order and membership clauses of `Where`, one row further: a kept
      first row is put in front of the rows kept from the others, a dropped
      one is left out. */
  lemma WhereStep<T>(s: seq<T>, keep: T -> bool, rest: seq<T>, r: seq<T>)
    requires s != []
    requires IsSubsequence(rest, s[1..])
    requires forall i :: 0 <= i < |rest| ==> keep(rest[i])
    requires forall x :: x in s[1..] && keep(x) ==> x in rest
    requires r == if keep(s[0]) then [s[0]] + rest else rest
    ensures IsSubsequence(r, s)
    ensures forall i :: 0 <= i < |r| ==> keep(r[i])
    ensures forall x :: x in s && keep(x) ==> x in r
  {
    assert s == [s[0]] + s[1..];
    if keep(s[0]) {
      assert r[1..] == rest;
    }
  }

  /** The multiplicity clause of `Where`, one row further: a kept first row
      adds one copy, a dropped one none. */
  lemma WhereCountStep<T>(s: seq<T>, keep: T -> bool, rest: seq<T>, r: seq<T>)
    requires s != []
    requires multiset(rest) <= multiset(s[1..])
    requires forall x :: x in s[1..] ==> multiset(rest)[x] == if keep(x) then multiset(s[1..])[x] else 0
    requires r == if keep(s[0]) then [s[0]] + rest else rest
    ensures forall x :: x in s ==> multiset(r)[x] == if keep(x) then multiset(s)[x] else 0
  {
    assert s == [s[0]] + s[1..];
    assert multiset(s) == multiset{s[0]} + multiset(s[1..]);
    forall x | x in s
      ensures multiset(r)[x] == if keep(x) then multiset(s)[x] else 0
    {
      if x !in s[1..] {
        assert multiset(s[1..])[x] == 0;
      }
    }
  }

  /** `Where` keeps exactly the satisfying rows of its input. */
  lemma WhereMembers<T>(s: seq<T>, keep: T -> bool, x: T)
    ensures x in Where(s, keep) <==> x in s && keep(x)
  {
    SubsequenceMembers(Where(s, keep), s);
  }

  /** Two filters with the same verdict on every row select the same rows. */
  lemma {:induction false} WhereCongruent<T>(s: seq<T>, f: T -> bool, g: T -> bool)
    requires forall x :: f(x) == g(x)
    ensures Where(s, f) == Where(s, g)
    decreases |s|
  {
    if s != [] {
      WhereCongruent(s[1..], f, g);
    }
  }

  /** Chained filters combine with AND: filtering by `f` and then by `g` is
      filtering once by their conjunction `h`. */
  lemma {:induction false} WhereWhere<T>(s: seq<T>, f: T -> bool, g: T -> bool, h: T -> bool)
    requires forall x :: h(x) == (f(x) && g(x))
    ensures Where(Where(s, f), g) == Where(s, h)
    decreases |s|
  {
    if s != [] {
      WhereWhere(s[1..], f, g, h);
      if f(s[0]) {
        assert Where(s, f) == [s[0]] + Where(s[1..], f);
        assert ([s[0]] + Where(s[1..], f))[1..] == Where(s[1..], f);
      }
    }
  }

  /** Filtering by a condition every row already meets changes nothing. */
  lemma {:induction false} WhereAll<T>(s: seq<T>, keep: T -> bool)
    requires forall i :: 0 <= i < |s| ==> keep(s[i])
    ensures Where(s, keep) == s
    decreases |s|
  {
    if s != [] {
      WhereAll(s[1..], keep);
      assert keep(s[0]);
      assert s == [s[0]] + s[1..];
    }
  }

  /** The first `n` rows, Python's `s[:n]` on a query set. */
  function Take<T(==)>(s: seq<T>, n: nat): (r: seq<T>)
    ensures |r| == Min(n, |s|)
    ensures IsSubsequence(r, s)
    ensures r == s[..|r|]
  {
    PrefixIsSubsequence(s, Min(n, |s|));
    s[..Min(n, |s|)]
  }
}
