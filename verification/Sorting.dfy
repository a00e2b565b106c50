/** Python's stable sort by a key, for keys that are tuples of numbers. */
module Sorting {

  type SortKey = (int, int, int)

  predicate KeyLess(a: SortKey, b: SortKey) {
    a.0 < b.0 || (a.0 == b.0 && (a.1 < b.1 || (a.1 == b.1 && a.2 < b.2)))
  }

  lemma KeyOrder(a: SortKey, b: SortKey, c: SortKey)
    ensures !KeyLess(b, a) && !KeyLess(c, b) ==> !KeyLess(c, a)
    ensures KeyLess(a, b) && KeyLess(b, c) ==> KeyLess(a, c)
    ensures KeyLess(a, b) || KeyLess(b, a) || a == b
    ensures !(KeyLess(a, b) && KeyLess(b, a))
  {
  }

  predicate InOrder<T>(key: T -> SortKey, s: seq<T>) {
    forall i, j :: 0 <= i < j < |s| ==> !KeyLess(key(s[j]), key(s[i]))
  }

  /** Behind everything whose key is not larger. */
  function Position<T>(key: T -> SortKey, s: seq<T>, x: T): (k: nat)
    ensures k <= |s|
    ensures forall i :: k <= i < |s| ==> KeyLess(key(x), key(s[i]))
    ensures k > 0 ==> !KeyLess(key(x), key(s[k - 1]))
  {
    if s == [] then 0
    else if !KeyLess(key(x), key(s[|s| - 1])) then |s|
    else Position(key, s[..|s| - 1], x)
  }

  function Insert<T>(key: T -> SortKey, s: seq<T>, x: T): seq<T> {
    var k := Position(key, s, x);
    s[..k] + [x] + s[k..]
  }

  function Sort<T>(key: T -> SortKey, s: seq<T>): seq<T> {
    if s == [] then [] else Insert(key, Sort(key, s[..|s| - 1]), s[|s| - 1])
  }

  lemma InsertKeepsOrder<T>(key: T -> SortKey, s: seq<T>, x: T)
    requires InOrder(key, s)
    ensures InOrder(key, Insert(key, s, x))
  {
    hide KeyLess, Position;
    var k, r := Position(key, s, x), Insert(key, s, x);
    forall i, j | 0 <= i < j < |r|
      ensures !KeyLess(key(r[j]), key(r[i]))
    {
      if j == k {
        KeyOrder(key(s[i]), key(s[k - 1]), key(x));
        KeyOrder(key(s[i]), key(x), key(x));
      } else if i == k {
        KeyOrder(key(x), key(r[j]), key(r[j]));
      }
    }
  }

  lemma InsertAddsOne<T>(key: T -> SortKey, s: seq<T>, x: T)
    ensures multiset(Insert(key, s, x)) == multiset(s) + multiset{x}
  {
    hide Position;
    var k := Position(key, s, x);
    assert s == s[..k] + s[k..];
  }

  /** Sorted, and the same elements. */
  lemma {:induction false} SortIsSorted<T>(key: T -> SortKey, s: seq<T>)
    ensures InOrder(key, Sort(key, s)) && multiset(Sort(key, s)) == multiset(s)
  {
    hide InOrder, Insert;
    if s == [] {
      NothingInOrder(key);
    } else {
      var front, last := s[..|s| - 1], s[|s| - 1];
      SortIsSorted(key, front);
      InsertKeepsOrder(key, Sort(key, front), last);
      InsertAddsOne(key, Sort(key, front), last);
      assert s == front + [last];
    }
  }

  lemma NothingInOrder<T>(key: T -> SortKey)
    ensures InOrder(key, [])
  {
  }

  /** Sorting what is in order changes nothing: appending to a sorted list and sorting again is
      inserting. */
  lemma {:induction false} SortOfSorted<T>(key: T -> SortKey, s: seq<T>)
    requires InOrder(key, s)
    ensures Sort(key, s) == s
  {
    hide KeyLess;
    if s != [] {
      var front, last := s[..|s| - 1], s[|s| - 1];
      SortOfSorted(key, front);
      assert Insert(key, front, last) == front + [last];
    }
  }
}
