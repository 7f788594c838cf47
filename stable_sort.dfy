/**
 * `Array.prototype.sort` with a comparator that orders by a numeric key, greatest
 * first (`(a, b) => key(b) - key(a)`). The sort is stable, so elements with equal keys
 * keep their order; it is modelled as an insertion sort that inserts each element in
 * front of the first one whose key is not greater than its own.
 */
module StableSort {
  import opened Ordering

  /** The key never increases along the sequence. */
  predicate NonIncreasing<T>(s: seq<T>, key: T -> real) {
    forall i, j :: 0 <= i < j < |s| ==> key(s[i]) >= key(s[j])
  }

  /** Puts `x` in front of the first element whose key is not greater than `x`'s. */
  function InsertDesc<T(==)>(x: T, s: seq<T>, key: T -> real): (r: seq<T>)
    ensures |r| == |s| + 1
    ensures multiset(r) == multiset(s) + multiset{x}
  {
    if |s| == 0 then [x]
    else if key(s[0]) > key(x) then
      assert s == [s[0]] + s[1..];
      [s[0]] + InsertDesc(x, s[1..], key)
    else [x] + s
  }

  /** The elements ordered by key, greatest first, equal keys in their original order. */
  function SortDesc<T(==)>(s: seq<T>, key: T -> real): (r: seq<T>)
    ensures |r| == |s|
    ensures multiset(r) == multiset(s)
  {
    if |s| == 0 then []
    else
      assert s == [s[0]] + s[1..];
      InsertDesc(s[0], SortDesc(s[1..], key), key)
  }

  /** The elements whose key is `v`, in order. */
  function WithKey<T>(s: seq<T>, key: T -> real, v: real): (r: seq<T>)
    ensures |r| <= |s|
  {
    if |s| == 0 then []
    else (if key(s[0]) == v then [s[0]] else []) + WithKey(s[1..], key, v)
  }

  /** The sum of `f` over the elements. */
  function SumOf<T>(s: seq<T>, f: T -> int): int {
    if |s| == 0 then 0 else f(s[0]) + SumOf(s[1..], f)
  }

  /** An element whose key is at least every key of a non-increasing sequence can go in front. */
  lemma HeadSorted<T>(h: T, s: seq<T>, key: T -> real)
    requires NonIncreasing(s, key)
    requires forall y :: y in s ==> key(h) >= key(y)
    ensures NonIncreasing([h] + s, key)
  {
    var r := [h] + s;
    forall i, j | 0 <= i < j < |r| ensures key(r[i]) >= key(r[j]) {
      assert r[j] == s[j - 1];
      if i > 0 {
        assert r[i] == s[i - 1];
      }
    }
  }

  lemma {:induction false} InsertDescSorted<T>(x: T, s: seq<T>, key: T -> real)
    requires NonIncreasing(s, key)
    ensures NonIncreasing(InsertDesc(x, s, key), key)
  {
    if |s| > 0 && key(s[0]) > key(x) {
      var rest := InsertDesc(x, s[1..], key);
      assert NonIncreasing(s[1..], key) by {
        forall i, j | 0 <= i < j < |s[1..]| ensures key(s[1..][i]) >= key(s[1..][j]) {
          assert s[1..][i] == s[i + 1] && s[1..][j] == s[j + 1];
        }
      }
      InsertDescSorted(x, s[1..], key);
      assert forall y :: y in rest ==> key(s[0]) >= key(y) by {
        forall y | y in rest ensures key(s[0]) >= key(y) {
          assert y in multiset(rest);
          assert y == x || y in s[1..];
        }
      }
      HeadSorted(s[0], rest, key);
    } else if |s| > 0 {
      assert forall y :: y in s ==> key(x) >= key(y) by {
        forall y | y in s ensures key(x) >= key(y) {
          var j :| 0 <= j < |s| && s[j] == y;
          assert key(s[0]) >= key(s[j]);
        }
      }
      HeadSorted(x, s, key);
    }
  }

  /** Sorting never increases. */
  lemma {:induction false} SortDescSorted<T>(s: seq<T>, key: T -> real)
    ensures NonIncreasing(SortDesc(s, key), key)
  {
    if |s| > 0 {
      SortDescSorted(s[1..], key);
      InsertDescSorted(s[0], SortDesc(s[1..], key), key);
    }
  }

  /** The elements with key `v` of a sequence with a head. */
  lemma WithKeyCons<T>(h: T, s: seq<T>, key: T -> real, v: real)
    ensures WithKey([h] + s, key, v) == (if key(h) == v then [h] else []) + WithKey(s, key, v)
  {
    assert ([h] + s)[1..] == s;
  }

  lemma {:induction false} InsertDescWithKey<T>(x: T, s: seq<T>, key: T -> real, v: real)
    ensures WithKey(InsertDesc(x, s, key), key, v) == (if key(x) == v then [x] else []) + WithKey(s, key, v)
  {
    if |s| > 0 && key(s[0]) > key(x) {
      var mine: seq<T> := if key(x) == v then [x] else [];
      var head: seq<T> := if key(s[0]) == v then [s[0]] else [];
      var tail := WithKey(s[1..], key, v);
      assert WithKey(InsertDesc(x, s, key), key, v) == head + (mine + tail) by {
        var rest := InsertDesc(x, s[1..], key);
        assert InsertDesc(x, s, key) == [s[0]] + rest;
        InsertDescWithKey(x, s[1..], key, v);
        WithKeyCons(s[0], rest, key, v);
      }
      assert WithKey(s, key, v) == head + tail by {
        assert s == [s[0]] + s[1..];
        WithKeyCons(s[0], s[1..], key, v);
      }
      if key(x) == v {
        assert head == [];
        assert head + (mine + tail) == mine + tail;
      } else {
        assert mine == [];
        assert mine + (head + tail) == head + tail;
      }
    } else if |s| > 0 {
      WithKeyCons(x, s, key, v);
    }
  }

  /**
   * Stability: for every key value, the elements with that key appear in the result in
   * the order they had in the input.
   */
  lemma {:induction false} SortDescStable<T>(s: seq<T>, key: T -> real, v: real)
    ensures WithKey(SortDesc(s, key), key, v) == WithKey(s, key, v)
  {
    if |s| > 0 {
      SortDescStable(s[1..], key, v);
      InsertDescWithKey(s[0], SortDesc(s[1..], key), key, v);
    }
  }

  lemma {:induction false} InsertDescSum<T>(x: T, s: seq<T>, key: T -> real, f: T -> int)
    ensures SumOf(InsertDesc(x, s, key), f) == f(x) + SumOf(s, f)
  {
    if |s| > 0 && key(s[0]) > key(x) {
      InsertDescSum(x, s[1..], key, f);
      assert InsertDesc(x, s, key)[1..] == InsertDesc(x, s[1..], key);
    } else if |s| > 0 {
      assert ([x] + s)[1..] == s;
    }
  }

  /** Sorting does not change a sum over the elements. */
  lemma {:induction false} SortDescSum<T>(s: seq<T>, key: T -> real, f: T -> int)
    ensures SumOf(SortDesc(s, key), f) == SumOf(s, f)
  {
    if |s| > 0 {
      SortDescSum(s[1..], key, f);
      InsertDescSum(s[0], SortDesc(s[1..], key), key, f);
    }
  }

  lemma {:induction false} InsertDescNoDup<T>(x: T, s: seq<T>, key: T -> real)
    requires NoDup(s) && x !in s
    ensures NoDup(InsertDesc(x, s, key))
  {
    if |s| > 0 && key(s[0]) > key(x) {
      assert NoDup(s[1..]);
      InsertDescNoDup(x, s[1..], key);
      var rest := InsertDesc(x, s[1..], key);
      assert s[0] !in multiset(rest) by {
        assert s[0] !in s[1..];
      }
      var r := InsertDesc(x, s, key);
      forall i, j | 0 <= i < j < |r| ensures r[i] != r[j] {
        assert r[j] == rest[j - 1];
        if i > 0 {
          assert r[i] == rest[i - 1];
        }
      }
    } else if |s| > 0 {
      var r := [x] + s;
      forall i, j | 0 <= i < j < |r| ensures r[i] != r[j] {
        assert r[j] == s[j - 1];
        if i > 0 {
          assert r[i] == s[i - 1];
        }
      }
    }
  }

  /** Sorting distinct elements gives distinct elements. */
  lemma {:induction false} SortDescNoDup<T>(s: seq<T>, key: T -> real)
    requires NoDup(s)
    ensures NoDup(SortDesc(s, key))
  {
    if |s| > 0 {
      assert NoDup(s[1..]);
      SortDescNoDup(s[1..], key);
      assert s[0] !in multiset(SortDesc(s[1..], key)) by {
        assert s[0] !in s[1..];
      }
      InsertDescNoDup(s[0], SortDesc(s[1..], key), key);
    }
  }
}
