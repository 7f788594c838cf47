/**
 * Reductions over a list of expenses shared by the summary and the chart series:
 * the sum of a per-record contribution (`reduce((sum, e) => sum + …, 0)`), the
 * records of one group, the groups in first-encounter order (the key order of a
 * JavaScript `Set` or `Map` filled in one pass), and the fact that summing a
 * contribution group by group gives the overall sum.
 */
module Ledger {
  import opened Calendar
  import opened ExpenseTypes
  import opened Ordering

  /** The sum of `f` over the records, added left to right. */
  function Total(s: seq<Expense>, f: Expense -> real): real {
    if |s| == 0 then 0.0 else Total(s[..|s| - 1], f) + f(s[|s| - 1])
  }

  /** The records whose key is `k`, in input order. */
  function Where<K(==)>(s: seq<Expense>, key: Expense -> K, k: K): (r: seq<Expense>)
    ensures |r| <= |s|
  {
    if |s| == 0 then []
    else Where(s[..|s| - 1], key, k) + (if key(s[|s| - 1]) == k then [s[|s| - 1]] else [])
  }

  /** The records that pass `keep`, in input order (`filter`). */
  function Select(s: seq<Expense>, keep: Expense -> bool): (r: seq<Expense>)
    ensures |r| <= |s|
  {
    if |s| == 0 then []
    else Select(s[..|s| - 1], keep) + (if keep(s[|s| - 1]) then [s[|s| - 1]] else [])
  }

  /** The distinct keys of the records, in order of first occurrence. */
  function Keys<K(==)>(s: seq<Expense>, key: Expense -> K): (ks: seq<K>)
  {
    if |s| == 0 then []
    else
      var ks := Keys(s[..|s| - 1], key);
      if key(s[|s| - 1]) in ks then ks else ks + [key(s[|s| - 1])]
  }

  // Per-record contributions.

  function AmountOf(e: Expense): real {
    e.amount
  }

  /** What a record adds to income: its amount when positive. */
  function IncomeOf(e: Expense): real {
    if e.amount > 0.0 then e.amount else 0.0
  }

  /** What a record adds to expenses: `Math.abs(amount)` when the amount is not positive. */
  function ExpenseOf(e: Expense): real {
    if e.amount > 0.0 then 0.0 else -e.amount
  }

  /** `Math.abs(amount)`. */
  function MagnitudeOf(e: Expense): real {
    if e.amount < 0.0 then -e.amount else e.amount
  }

  // Grouping keys.

  function DayOf(e: Expense): Date {
    e.date
  }

  function MonthKeyOf(e: Expense): YearMonth {
    MonthOf(e.date)
  }

  function CategoryOf(e: Expense): string {
    e.category
  }

  // ---------------------------------------------------------------------------

  lemma TotalAppend(s: seq<Expense>, e: Expense, f: Expense -> real)
    ensures Total(s + [e], f) == Total(s, f) + f(e)
  {
    assert (s + [e])[..|s|] == s;
  }

  lemma WhereAppend<K>(s: seq<Expense>, e: Expense, key: Expense -> K, k: K)
    ensures Where(s + [e], key, k) == Where(s, key, k) + (if key(e) == k then [e] else [])
  {
    assert (s + [e])[..|s|] == s;
  }

  lemma KeysAppend<K>(s: seq<Expense>, e: Expense, key: Expense -> K)
    ensures Keys(s + [e], key) == if key(e) in Keys(s, key) then Keys(s, key) else Keys(s, key) + [key(e)]
  {
    assert (s + [e])[..|s|] == s;
  }

  lemma SelectAppend(s: seq<Expense>, e: Expense, keep: Expense -> bool)
    ensures Select(s + [e], keep) == Select(s, keep) + (if keep(e) then [e] else [])
  {
    assert (s + [e])[..|s|] == s;
  }

  /**
   * Summing `f` over the records that pass `keep` is summing, over all records, `f` where
   * `keep` holds and 0 elsewhere.
   */
  lemma {:induction false} TotalSelect(s: seq<Expense>, keep: Expense -> bool, f: Expense -> real, g: Expense -> real)
    requires forall e :: g(e) == if keep(e) then f(e) else 0.0
    ensures Total(Select(s, keep), f) == Total(s, g)
  {
    if |s| > 0 {
      var init, last := s[..|s| - 1], s[|s| - 1];
      assert s == init + [last];
      TotalSelect(init, keep, f, g);
      SelectAppend(init, last, keep);
      assert Total(s, g) == Total(init, g) + g(last);
      if keep(last) {
        TotalAppend(Select(init, keep), last, f);
      } else {
        assert Select(s, keep) == Select(init, keep);
      }
    }
  }

  /** Contributions that agree record by record have the same sum. */
  lemma {:induction false} TotalSum(s: seq<Expense>, f: Expense -> real, g: Expense -> real, h: Expense -> real)
    requires forall e :: h(e) == f(e) + g(e)
    ensures Total(s, h) == Total(s, f) + Total(s, g)
  {
    if |s| > 0 {
      TotalSum(s[..|s| - 1], f, g, h);
    }
  }

  /** Negating every contribution negates the sum. */
  lemma {:induction false} TotalNegate(s: seq<Expense>, f: Expense -> real, g: Expense -> real)
    requires forall e :: g(e) == -f(e)
    ensures Total(s, g) == -Total(s, f)
  {
    if |s| > 0 {
      TotalNegate(s[..|s| - 1], f, g);
    }
  }

  /** A sum of non-negative contributions is non-negative. */
  lemma {:induction false} TotalNonNegative(s: seq<Expense>, f: Expense -> real)
    requires forall i :: 0 <= i < |s| ==> f(s[i]) >= 0.0
    ensures Total(s, f) >= 0.0
  {
    if |s| > 0 {
      TotalNonNegative(s[..|s| - 1], f);
    }
  }

  /** Every record of a group has the group's key, and comes from the input. */
  lemma {:induction false} WhereSpec<K>(s: seq<Expense>, key: Expense -> K, k: K)
    ensures forall e :: e in Where(s, key, k) ==> e in s && key(e) == k
  {
    if |s| > 0 {
      WhereSpec(s[..|s| - 1], key, k);
    }
  }

  /**
   * The keys list every key of the input exactly once, and each of them has at least
   * one record.
   */
  lemma {:induction false} KeysSpec<K>(s: seq<Expense>, key: Expense -> K)
    ensures NoDup(Keys(s, key))
    ensures forall i :: 0 <= i < |s| ==> key(s[i]) in Keys(s, key)
    ensures forall k :: k in Keys(s, key) ==> |Where(s, key, k)| > 0
    ensures |Keys(s, key)| <= |s|
  {
    if |s| > 0 {
      var init, last := s[..|s| - 1], s[|s| - 1];
      assert s == init + [last];
      KeysSpec(init, key);
      KeysAppend(init, last, key);
      forall k | k in Keys(s, key) ensures |Where(s, key, k)| > 0 {
        WhereAppend(init, last, key, k);
      }
      forall i | 0 <= i < |s| ensures key(s[i]) in Keys(s, key) {
        if i < |s| - 1 { assert s[i] == init[i]; }
      }
    }
  }

  /** A value that is not among the keys has no records. */
  lemma {:induction false} NotAKeyNoRecords<K>(s: seq<Expense>, key: Expense -> K, k: K)
    requires k !in Keys(s, key)
    ensures Where(s, key, k) == []
  {
    if |s| > 0 {
      var init, last := s[..|s| - 1], s[|s| - 1];
      assert s == init + [last];
      KeysAppend(init, last, key);
      NotAKeyNoRecords(init, key, k);
      WhereAppend(init, last, key, k);
    }
  }

  // ---------------------------------------------------------------------------
  // Summing group by group
  // ---------------------------------------------------------------------------

  /** The sum of `f` over the group of each key in `ks`, added up over the keys. */
  function SumByKey<K(==)>(ks: seq<K>, s: seq<Expense>, key: Expense -> K, f: Expense -> real): real {
    if |ks| == 0 then 0.0
    else SumByKey(ks[..|ks| - 1], s, key, f) + Total(Where(s, key, ks[|ks| - 1]), f)
  }

  /** The number of records in the group of each key in `ks`, added up over the keys. */
  function CountByKey<K(==)>(ks: seq<K>, s: seq<Expense>, key: Expense -> K): nat {
    if |ks| == 0 then 0
    else CountByKey(ks[..|ks| - 1], s, key) + |Where(s, key, ks[|ks| - 1])|
  }

  lemma {:induction false} SumByKeyAppend<K>(ks: seq<K>, s: seq<Expense>, e: Expense, key: Expense -> K, f: Expense -> real)
    requires NoDup(ks)
    ensures SumByKey(ks, s + [e], key, f) == SumByKey(ks, s, key, f) + (if key(e) in ks then f(e) else 0.0)
  {
    if |ks| > 0 {
      var init, k := ks[..|ks| - 1], ks[|ks| - 1];
      assert ks == init + [k];
      SumByKeyAppend(init, s, e, key, f);
      WhereAppend(s, e, key, k);
      assert key(e) in ks <==> key(e) in init || key(e) == k;
      if key(e) == k {
        TotalAppend(Where(s, key, k), e, f);
        assert key(e) !in init;
      } else {
        assert Where(s + [e], key, k) == Where(s, key, k);
      }
    }
  }

  lemma {:induction false} CountByKeyAppend<K>(ks: seq<K>, s: seq<Expense>, e: Expense, key: Expense -> K)
    requires NoDup(ks)
    ensures CountByKey(ks, s + [e], key) == CountByKey(ks, s, key) + (if key(e) in ks then 1 else 0)
  {
    if |ks| > 0 {
      var init, k := ks[..|ks| - 1], ks[|ks| - 1];
      assert ks == init + [k];
      CountByKeyAppend(init, s, e, key);
      WhereAppend(s, e, key, k);
      if key(e) == k {
        assert key(e) !in init;
      }
    }
  }

  /**
   * Summing a contribution group by group, over any duplicate-free list of keys that
   * covers every record, gives its sum over all records.
   */
  lemma {:induction false} GroupSum<K>(ks: seq<K>, s: seq<Expense>, key: Expense -> K, f: Expense -> real)
    requires NoDup(ks)
    requires forall i :: 0 <= i < |s| ==> key(s[i]) in ks
    ensures SumByKey(ks, s, key, f) == Total(s, f)
  {
    if |s| == 0 {
      ZeroWhenEmpty(ks, key, f);
    } else {
      var init, last := s[..|s| - 1], s[|s| - 1];
      assert s == init + [last];
      GroupSum(ks, init, key, f);
      SumByKeyAppend(ks, init, last, key, f);
    }
  }

  /** Counting group by group over such a list of keys counts every record once. */
  lemma {:induction false} GroupCount<K>(ks: seq<K>, s: seq<Expense>, key: Expense -> K)
    requires NoDup(ks)
    requires forall i :: 0 <= i < |s| ==> key(s[i]) in ks
    ensures CountByKey(ks, s, key) == |s|
  {
    if |s| == 0 {
      NoneWhenEmpty(ks, key);
    } else {
      var init, last := s[..|s| - 1], s[|s| - 1];
      assert s == init + [last];
      GroupCount(ks, init, key);
      CountByKeyAppend(ks, init, last, key);
    }
  }

  lemma {:induction false} ZeroWhenEmpty<K>(ks: seq<K>, key: Expense -> K, f: Expense -> real)
    ensures SumByKey(ks, [], key, f) == 0.0
  {
    if |ks| > 0 { ZeroWhenEmpty(ks[..|ks| - 1], key, f); }
  }

  lemma {:induction false} NoneWhenEmpty<K>(ks: seq<K>, key: Expense -> K)
    ensures CountByKey(ks, [], key) == 0
  {
    if |ks| > 0 { NoneWhenEmpty(ks[..|ks| - 1], key); }
  }
}
