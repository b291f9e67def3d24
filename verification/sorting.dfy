/**
 * Python's `list.sort(key=...)` is a stable sort. This module gives a stable
 * insertion sort by an integer key and proves the three facts that pin its
 * result down: it is ordered by the key, it is a permutation of its input,
 * and elements with equal keys keep their original relative order.
 * A descending sort (`reverse=True`, which Python also keeps stable) is the
 * ascending sort by the negated key.
 */
module Sorting {

  /** Non-decreasing by `key`. */
  predicate SortedBy<T>(s: seq<T>, key: T -> int) {
    forall i, j :: 0 <= i < j < |s| ==> key(s[i]) <= key(s[j])
  }

  /** The subsequence of `s` whose elements have key `n`, in their original order. */
  function WithKey<T>(s: seq<T>, key: T -> int, n: int): (r: seq<T>)
    ensures |r| <= |s|
    ensures forall i :: 0 <= i < |r| ==> key(r[i]) == n
  {
    if |s| == 0 then []
    else WithKey(s[..|s| - 1], key, n) + (if key(s[|s| - 1]) == n then [s[|s| - 1]] else [])
  }

  lemma {:induction false} WithKeyAppend<T>(a: seq<T>, b: seq<T>, key: T -> int, n: int)
    ensures WithKey(a + b, key, n) == WithKey(a, key, n) + WithKey(b, key, n)
    decreases |b|
  {
    if |b| == 0 {
      assert a + b == a;
    } else {
      var b' := b[..|b| - 1];
      assert (a + b)[..|a + b| - 1] == a + b';
      WithKeyAppend(a, b', key, n);
    }
  }

  /**
   * Inserts `x` into `s` after the longest suffix of elements whose key exceeds
   * `key(x)`: the step of a stable insertion sort.
   */
  function InsertByKey<T>(s: seq<T>, x: T, key: T -> int): (r: seq<T>)
    ensures multiset(r) == multiset(s) + multiset{x}
  {
    if |s| == 0 || key(s[|s| - 1]) <= key(x) then
      s + [x]
    else
      assert s == s[..|s| - 1] + [s[|s| - 1]];
      InsertByKey(s[..|s| - 1], x, key) + [s[|s| - 1]]
  }

  /** Inserting into a sorted sequence keeps it sorted, with `x` after its equals. */
  lemma {:induction false} InsertKeepsOrder<T>(s: seq<T>, x: T, key: T -> int)
    requires SortedBy(s, key)
    ensures SortedBy(InsertByKey(s, x, key), key)
    ensures |InsertByKey(s, x, key)| == |s| + 1
    ensures forall i :: 0 <= i < |s| + 1 ==> InsertByKey(s, x, key)[i] == x || InsertByKey(s, x, key)[i] in s
  {
    if |s| == 0 || key(s[|s| - 1]) <= key(x) {
    } else {
      var init := s[..|s| - 1];
      InsertKeepsOrder(init, x, key);
      var r' := InsertByKey(init, x, key);
      assert forall i :: 0 <= i < |r'| ==> key(r'[i]) <= key(s[|s| - 1]) by {
        forall i | 0 <= i < |r'| ensures key(r'[i]) <= key(s[|s| - 1]) {
          if r'[i] != x {
            var k :| 0 <= k < |init| && init[k] == r'[i];
          }
        }
      }
    }
  }

  /** Equal-key elements keep their order: `x` lands after every element with its key. */
  lemma {:induction false} InsertKeepsEqualKeysInOrder<T>(s: seq<T>, x: T, key: T -> int, n: int)
    ensures WithKey(InsertByKey(s, x, key), key, n) == WithKey(s, key, n) + WithKey([x], key, n)
  {
    if |s| == 0 || key(s[|s| - 1]) <= key(x) {
      WithKeyAppend(s, [x], key, n);
    } else {
      var last := s[|s| - 1];
      var init := s[..|s| - 1];
      var r' := InsertByKey(init, x, key);
      calc {
        WithKey(InsertByKey(s, x, key), key, n);
        { assert InsertByKey(s, x, key) == r' + [last]; }
        WithKey(r' + [last], key, n);
        { WithKeyAppend(r', [last], key, n); }
        WithKey(r', key, n) + WithKey([last], key, n);
        { InsertKeepsEqualKeysInOrder(init, x, key, n); }
        (WithKey(init, key, n) + WithKey([x], key, n)) + WithKey([last], key, n);
        { SingleKeysCommute(x, last, key, n); }
        WithKey(init, key, n) + (WithKey([last], key, n) + WithKey([x], key, n));
        { WithKeyAppend(init, [last], key, n); assert init + [last] == s; }
        WithKey(s, key, n) + WithKey([x], key, n);
      }
    }
  }

  /** A one-element sequence keeps its element exactly when the key matches. */
  lemma WithKeySingle<T>(x: T, key: T -> int, n: int)
    ensures WithKey([x], key, n) == if key(x) == n then [x] else []
  {
    assert [x][..0] == [];
  }

  /** Two elements with different keys cannot both have key `n`. */
  lemma SingleKeysCommute<T>(x: T, y: T, key: T -> int, n: int)
    requires key(x) < key(y)
    ensures WithKey([x], key, n) + WithKey([y], key, n) == WithKey([y], key, n) + WithKey([x], key, n)
  {
    WithKeySingle(x, key, n);
    WithKeySingle(y, key, n);
  }

  /** Stable insertion sort, ascending by `key`. */
  function SortByKey<T>(s: seq<T>, key: T -> int): (r: seq<T>)
    ensures SortedBy(r, key)
    ensures multiset(r) == multiset(s)
    ensures forall n :: WithKey(r, key, n) == WithKey(s, key, n)
  {
    if |s| == 0 then []
    else
      var init := s[..|s| - 1];
      var x := s[|s| - 1];
      assert s == init + [x];
      var sortedInit := SortByKey(init, key);
      InsertKeepsOrder(sortedInit, x, key);
      assert forall n :: WithKey(InsertByKey(sortedInit, x, key), key, n) == WithKey(s, key, n) by {
        forall n ensures WithKey(InsertByKey(sortedInit, x, key), key, n) == WithKey(s, key, n) {
          InsertKeepsEqualKeysInOrder(sortedInit, x, key, n);
          WithKeyAppend(init, [x], key, n);
        }
      }
      InsertByKey(sortedInit, x, key)
  }
}
