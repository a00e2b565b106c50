/** What is left of a list after some elements are dropped, in order and without repeats. */
module Subsequences {
  import opened Bytes

  predicate Subsequence<T(==)>(a: seq<T>, b: seq<T>)
    decreases |b|
  {
    a == [] || (b != [] && ((a[0] == b[0] && Subsequence(a[1..], b[1..])) || Subsequence(a, b[1..])))
  }

  lemma {:induction false} SubsequenceOfMore<T>(a: seq<T>, more: seq<T>, b: seq<T>)
    requires Subsequence(a, b)
    ensures Subsequence(a, more + b)
    decreases |more|
  {
    if more == [] {
      assert more + b == b;
    } else {
      SubsequenceOfMore(a, more[1..], b);
      assert (more + b)[1..] == more[1..] + b;
    }
  }

  lemma SubsequenceFrom<T>(a: seq<T>, b: seq<T>, i: nat, j: nat)
    requires i <= j <= |b| && Subsequence(a, b[j..])
    ensures Subsequence(a, b[i..])
  {
    SubsequenceOfMore(a, b[i..j], b[j..]);
    assert b[i..j] + b[j..] == b[i..];
  }

  lemma SubsequenceCons<T>(x: T, a: seq<T>, b: seq<T>)
    requires Subsequence(a, b)
    ensures Subsequence([x] + a, [x] + b)
  {
    assert ([x] + a)[1..] == a && ([x] + b)[1..] == b;
  }

  lemma {:induction false} SubsequenceTransitive<T>(a: seq<T>, b: seq<T>, c: seq<T>)
    requires Subsequence(a, b) && Subsequence(b, c)
    ensures Subsequence(a, c)
    decreases |b| + |c|
  {
    if a == [] || b == [] {
    } else if Subsequence(b, c[1..]) {
      SubsequenceTransitive(a, b, c[1..]);
    } else if a[0] == b[0] && Subsequence(a[1..], b[1..]) {
      SubsequenceTransitive(a[1..], b[1..], c[1..]);
    } else {
      SubsequenceTransitive(a, b[1..], c[1..]);
    }
  }

  /** The values that are there. */
  function Somes<T>(s: seq<Option<T>>): (r: seq<T>)
    ensures |r| <= |s|
  {
    if s == [] then []
    else if s[0].Some? then [s[0].value] + Somes(s[1..])
    else Somes(s[1..])
  }

  lemma {:induction false} SomesKeepOrder<T>(a: seq<Option<T>>, b: seq<Option<T>>)
    requires Subsequence(a, b)
    ensures Subsequence(Somes(a), Somes(b))
    decreases |b|
  {
    if a == [] {
    } else if a[0] == b[0] && Subsequence(a[1..], b[1..]) {
      SomesKeepOrder(a[1..], b[1..]);
      if a[0].Some? {
        SubsequenceCons(a[0].value, Somes(a[1..]), Somes(b[1..]));
      }
    } else {
      SomesKeepOrder(a, b[1..]);
      if b[0].Some? {
        SubsequenceOfMore(Somes(a), [b[0].value], Somes(b[1..]));
      }
    }
  }
}
