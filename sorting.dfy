/** Ordered insertion, the model of an SQL `ORDER BY <key> DESC`. */
module Sorting {

  /** Every element's key is at least the key of every later element. */
  predicate SortedDesc<T>(s: seq<T>, key: T -> int) {
    forall i, j :: 0 <= i < j < |s| ==> key(s[j]) <= key(s[i])
  }

  /** Inserts `x` before the first element whose key is not greater than its own. */
  function InsertDesc<T>(s: seq<T>, x: T, key: T -> int): (r: seq<T>)
    ensures |r| == |s| + 1
    ensures multiset(r) == multiset(s) + multiset{x}
    ensures forall y :: y in r ==> y in s || y == x
  {
    if s == [] || key(s[0]) <= key(x) then [x] + s
    else
      var tail := InsertDesc(s[1..], x, key);
      assert s == [s[0]] + s[1..];
      [s[0]] + tail
  }

  /** Insertion keeps a list sorted. */
  lemma {:induction false} InsertDescSorted<T>(s: seq<T>, x: T, key: T -> int)
    requires SortedDesc(s, key)
    ensures SortedDesc(InsertDesc(s, x, key), key)
    decreases |s|
  {
    if s != [] && key(x) < key(s[0]) {
      var tail := InsertDesc(s[1..], x, key);
      InsertDescSorted(s[1..], x, key);
      forall y | y in tail
        ensures key(y) <= key(s[0])
      {
        if y != x {
          var k :| 0 <= k < |s[1..]| && s[1..][k] == y;
          assert s[k + 1] == y;
        }
      }
      PrependSorted(s[0], tail, key);
    } else {
      PrependSorted(x, s, key);
    }
  }

  lemma PrependSorted<T>(h: T, t: seq<T>, key: T -> int)
    requires SortedDesc(t, key)
    requires forall y :: y in t ==> key(y) <= key(h)
    ensures SortedDesc([h] + t, key)
  {
    var r := [h] + t;
    forall i, j | 0 <= i < j < |r|
      ensures key(r[j]) <= key(r[i])
    {
      assert r[j] == t[j - 1];
      if i > 0 {
        assert r[i] == t[i - 1];
      }
    }
  }
}
