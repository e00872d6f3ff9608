/** The stable sort the source gets from `Array.prototype.sort`, by an integer key. */
module Sorting {

  /** `x` goes after every element whose key is not greater. */
  function Insert<T>(s: seq<T>, x: T, key: T -> int): seq<T> {
    if s == [] || key(s[|s| - 1]) <= key(x) then s + [x]
    else Insert(s[..|s| - 1], x, key) + [s[|s| - 1]]
  }

  function SortBy<T>(s: seq<T>, key: T -> int): seq<T> {
    if s == [] then [] else Insert(SortBy(s[..|s| - 1], key), s[|s| - 1], key)
  }

  predicate Ordered<T>(s: seq<T>, key: T -> int) {
    forall i, j :: 0 <= i < j < |s| ==> key(s[i]) <= key(s[j])
  }

  /** The elements with one key, in the order they have in `s`. */
  function WithKey<T>(s: seq<T>, key: T -> int, k: int): seq<T> {
    if s == [] then []
    else WithKey(s[..|s| - 1], key, k) + if key(s[|s| - 1]) == k then [s[|s| - 1]] else []
  }

  lemma {:induction false} InsertElements<T>(s: seq<T>, x: T, key: T -> int)
    ensures multiset(Insert(s, x, key)) == multiset(s) + multiset{x}
  {
    if s == [] || key(s[|s| - 1]) <= key(x) {
    } else {
      var n := |s| - 1;
      assert s == s[..n] + [s[n]];
      InsertElements(s[..n], x, key);
    }
  }

  predicate AllAtMost<T>(s: seq<T>, key: T -> int, bound: int) {
    forall i :: 0 <= i < |s| ==> key(s[i]) <= bound
  }

  lemma {:induction false} InsertBounded<T>(s: seq<T>, x: T, key: T -> int, bound: int)
    requires AllAtMost(s, key, bound) && key(x) <= bound
    ensures AllAtMost(Insert(s, x, key), key, bound)
  {
    if s == [] || key(s[|s| - 1]) <= key(x) {
    } else {
      InsertBounded(s[..|s| - 1], x, key, bound);
    }
  }

  lemma {:induction false} InsertOrders<T>(s: seq<T>, x: T, key: T -> int)
    requires Ordered(s, key)
    ensures Ordered(Insert(s, x, key), key)
  {
    if s == [] || key(s[|s| - 1]) <= key(x) {
    } else {
      var n := |s| - 1;
      InsertOrders(s[..n], x, key);
      InsertBounded(s[..n], x, key, key(s[n]));
    }
  }

  /** Sorting keeps every element and puts the keys in order. */
  lemma {:induction false} SortKeeps<T>(s: seq<T>, key: T -> int)
    ensures multiset(SortBy(s, key)) == multiset(s)
    ensures Ordered(SortBy(s, key), key)
  {
    if s == [] {
    } else {
      var n := |s| - 1;
      assert s == s[..n] + [s[n]];
      SortKeeps(s[..n], key);
      InsertElements(SortBy(s[..n], key), s[n], key);
      InsertOrders(SortBy(s[..n], key), s[n], key);
    }
  }

  lemma SortMembers<T>(s: seq<T>, key: T -> int)
    ensures |SortBy(s, key)| == |s|
    ensures forall x :: x in SortBy(s, key) <==> x in s
  {
    SortKeeps(s, key);
    assert |multiset(SortBy(s, key))| == |multiset(s)|;
    forall x
      ensures x in SortBy(s, key) <==> x in s
    {
      assert x in SortBy(s, key) <==> x in multiset(SortBy(s, key));
    }
  }

  lemma WithKeyAppend<T>(s: seq<T>, x: T, key: T -> int, k: int)
    ensures WithKey(s + [x], key, k) == WithKey(s, key, k) + if key(x) == k then [x] else []
  {
    assert (s + [x])[..|s|] == s;
  }

  lemma {:induction false} InsertStable<T>(s: seq<T>, x: T, key: T -> int, k: int)
    ensures WithKey(Insert(s, x, key), key, k) == WithKey(s, key, k) + if key(x) == k then [x] else []
  {
    if s == [] || key(s[|s| - 1]) <= key(x) {
      WithKeyAppend(s, x, key, k);
    } else {
      var n := |s| - 1;
      InsertStable(s[..n], x, key, k);
      WithKeyAppend(Insert(s[..n], x, key), s[n], key, k);
    }
  }

  /** Elements with equal keys stay in the order they came. */
  lemma {:induction false} SortStable<T>(s: seq<T>, key: T -> int, k: int)
    ensures WithKey(SortBy(s, key), key, k) == WithKey(s, key, k)
  {
    if s == [] {
    } else {
      var n := |s| - 1;
      SortStable(s[..n], key, k);
      InsertStable(SortBy(s[..n], key), s[n], key, k);
    }
  }

  /** Ordered by one key, and by another among equal ones. */
  predicate OrderedBy<T>(s: seq<T>, first: T -> int, second: T -> int) {
    forall i, j :: 0 <= i < j < |s| ==>
      first(s[i]) < first(s[j]) || (first(s[i]) == first(s[j]) && second(s[i]) <= second(s[j]))
  }

  lemma {:induction false} InsertOrdersBy<T>(s: seq<T>, x: T, first: T -> int, second: T -> int)
    requires OrderedBy(s, first, second) && AllAtMost(s, second, second(x))
    ensures OrderedBy(Insert(s, x, first), first, second)
  {
    if s == [] || first(s[|s| - 1]) <= first(x) {
    } else {
      var n := |s| - 1;
      InsertOrdersBy(s[..n], x, first, second);
      InsertElements(s[..n], x, first);
      var t := Insert(s[..n], x, first);
      forall i | 0 <= i < |t|
        ensures first(t[i]) < first(s[n]) || (first(t[i]) == first(s[n]) && second(t[i]) <= second(s[n]))
      {
        assert t[i] in multiset(t);
        assert t[i] in s[..n] || t[i] == x;
      }
    }
  }

  /** A sort by a second key first leaves that order among equal ones. */
  lemma {:induction false} SortTwice<T>(s: seq<T>, first: T -> int, second: T -> int)
    requires Ordered(s, second)
    ensures OrderedBy(SortBy(s, first), first, second)
  {
    if s == [] {
    } else {
      var n := |s| - 1;
      SortTwice(s[..n], first, second);
      SortKeeps(s[..n], first);
      var t := SortBy(s[..n], first);
      forall i | 0 <= i < |t|
        ensures second(t[i]) <= second(s[n])
      {
        assert t[i] in multiset(t);
        assert t[i] in s[..n];
        var k :| 0 <= k < n && s[..n][k] == t[i];
        assert second(s[k]) <= second(s[n]);
      }
      InsertOrdersBy(t, s[n], first, second);
    }
  }
}
