/**
 * Array.prototype.sort with a comparator, as a stable insertion sort over
 * sequences. A comparator returns a negative number when its first argument
 * goes first, a positive one when its second does, and 0 when they tie.
 */
module Sorting {

  /** No element of s compares above a later one. */
  ghost predicate Sorted<T>(s: seq<T>, cmp: (T, T) -> int)
  {
    forall i, j | 0 <= i < j < |s| :: cmp(s[i], s[j]) <= 0
  }

  /**
   * On the elements of dom, "cmp(a, b) <= 0" is total and transitive: the
   * condition under which a comparator sort can order its input at all.
   */
  ghost predicate TotalPreorderOn<T>(cmp: (T, T) -> int, dom: seq<T>)
  {
    && (forall a, b | a in dom && b in dom :: cmp(a, b) <= 0 || cmp(b, a) <= 0)
    && (forall a, b, c | a in dom && b in dom && c in dom && cmp(a, b) <= 0 && cmp(b, c) <= 0 :: cmp(a, c) <= 0)
  }

  /** Puts x in front of the first element it does not compare above. */
  function Insert<T>(x: T, s: seq<T>, cmp: (T, T) -> int): (r: seq<T>)
    ensures multiset(r) == multiset(s) + multiset{x}
  {
    if s == [] then [x]
    else if cmp(x, s[0]) <= 0 then [x] + s
    else
      assert s == [s[0]] + s[1..];
      [s[0]] + Insert(x, s[1..], cmp)
  }

  /** The sorted copy of s: a permutation of s, ordered by cmp when cmp can order s. */
  function SortBy<T>(s: seq<T>, cmp: (T, T) -> int): (r: seq<T>)
    ensures multiset(r) == multiset(s)
  {
    if s == [] then []
    else
      assert s == [s[0]] + s[1..];
      Insert(s[0], SortBy(s[1..], cmp), cmp)
  }

  lemma SortedPrepend<T>(a: T, t: seq<T>, cmp: (T, T) -> int)
    requires Sorted(t, cmp)
    requires forall e | e in t :: cmp(a, e) <= 0
    ensures Sorted([a] + t, cmp)
  {
    var r := [a] + t;
    forall i, j | 0 <= i < j < |r| ensures cmp(r[i], r[j]) <= 0 {
      if i == 0 {
        assert r[j] == t[j - 1];
        assert r[j] in t;
      } else {
        assert r[i] == t[i - 1] && r[j] == t[j - 1];
      }
    }
  }

  lemma {:induction false} InsertSorted<T>(x: T, s: seq<T>, cmp: (T, T) -> int, dom: seq<T>)
    requires TotalPreorderOn(cmp, dom)
    requires x in dom && forall y | y in s :: y in dom
    requires Sorted(s, cmp)
    ensures Sorted(Insert(x, s, cmp), cmp)
  {
    if s == [] {
    } else if cmp(x, s[0]) <= 0 {
      forall e | e in s ensures cmp(x, e) <= 0 {
        var k :| 0 <= k < |s| && s[k] == e;
        if k > 0 {
          assert cmp(s[0], s[k]) <= 0;
        }
      }
      SortedPrepend(x, s, cmp);
    } else {
      var tail := s[1..];
      assert Sorted(tail, cmp) by {
        forall i, j | 0 <= i < j < |tail| ensures cmp(tail[i], tail[j]) <= 0 {
          assert tail[i] == s[i + 1] && tail[j] == s[j + 1];
        }
      }
      forall y | y in tail ensures y in dom {
        assert y in s;
      }
      InsertSorted(x, tail, cmp, dom);
      var t := Insert(x, tail, cmp);
      assert cmp(s[0], x) <= 0;
      forall e | e in t ensures cmp(s[0], e) <= 0 {
        assert e in multiset(t);
        assert e in multiset(tail) || e == x;
        if e != x {
          var k :| 0 <= k < |tail| && tail[k] == e;
          assert s[k + 1] == e;
        }
      }
      SortedPrepend(s[0], t, cmp);
    }
  }

  lemma {:induction false} SortByOrdersWithin<T>(s: seq<T>, cmp: (T, T) -> int, dom: seq<T>)
    requires TotalPreorderOn(cmp, dom)
    requires forall y | y in s :: y in dom
    ensures Sorted(SortBy(s, cmp), cmp)
  {
    if s != [] {
      forall y | y in s[1..] ensures y in dom {
        assert y in s;
      }
      SortByOrdersWithin(s[1..], cmp, dom);
      var t := SortBy(s[1..], cmp);
      forall y | y in t ensures y in dom {
        assert y in multiset(t);
        assert y in multiset(s[1..]);
      }
      InsertSorted(s[0], t, cmp, dom);
    }
  }

  /** A comparator that is a total preorder on s sorts s. */
  lemma SortByOrders<T>(s: seq<T>, cmp: (T, T) -> int)
    requires TotalPreorderOn(cmp, s)
    ensures Sorted(SortBy(s, cmp), cmp)
  {
    SortByOrdersWithin(s, cmp, s);
  }

  /** The comparator of the for...in key order: numeric difference. */
  function IntDifference(a: int, b: int): int
  {
    a - b
  }

  /** Integers sort into ascending order. */
  lemma {:induction false} SortIntsAscending(s: seq<int>)
    ensures multiset(SortBy(s, IntDifference)) == multiset(s)
    ensures forall i, j | 0 <= i < j < |SortBy(s, IntDifference)| :: SortBy(s, IntDifference)[i] <= SortBy(s, IntDifference)[j]
  {
    SortByOrders(s, IntDifference);
  }
}
