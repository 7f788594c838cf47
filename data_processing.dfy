/**
 * The summary of a list of validated expenses (src/utils/dataProcessing.ts): record
 * count, date range, sorted distinct categories, the total, positive and negative
 * sums, and the number of records per category.
 */
module DataProcessing {
  import opened Wrappers
  import opened Calendar
  import opened Ordering
  import opened JsText
  import opened ExpenseTypes
  import opened Ledger

  // ---------------------------------------------------------------------------
  // Sums
  // ---------------------------------------------------------------------------

  /** `getTotalAmount`: the sum of all amounts. */
  function GetTotalAmount(expenses: seq<Expense>): real {
    Total(expenses, AmountOf)
  }

  predicate IsPositive(e: Expense) {
    e.amount > 0.0
  }

  predicate IsNegative(e: Expense) {
    e.amount < 0.0
  }

  /** `positiveAmount`: the amounts greater than 0, filtered out and summed. */
  function PositiveAmount(expenses: seq<Expense>): real {
    Total(Select(expenses, IsPositive), AmountOf)
  }

  /** `negativeAmount`: the amounts less than 0, filtered out and summed. */
  function NegativeAmount(expenses: seq<Expense>): real {
    Total(Select(expenses, IsNegative), AmountOf)
  }

  /** What a record adds to the negative sum: its amount when negative. */
  function NegativePartOf(e: Expense): real {
    if e.amount < 0.0 then e.amount else 0.0
  }

  /**
   * The positive sum is the income of the charts and is never negative; the negative
   * sum is minus their expenses and is never positive (a zero amount is in neither);
   * together they make up the total.
   */
  lemma {:induction false} SignSplit(s: seq<Expense>)
    ensures PositiveAmount(s) == Total(s, IncomeOf) && PositiveAmount(s) >= 0.0
    ensures NegativeAmount(s) == -Total(s, ExpenseOf) && NegativeAmount(s) <= 0.0
    ensures GetTotalAmount(s) == PositiveAmount(s) + NegativeAmount(s)
  {
    TotalSelect(s, IsPositive, AmountOf, IncomeOf);
    TotalSelect(s, IsNegative, AmountOf, NegativePartOf);
    TotalNegate(s, ExpenseOf, NegativePartOf);
    TotalSum(s, IncomeOf, NegativePartOf, AmountOf);
    TotalNonNegative(s, IncomeOf);
    TotalNonNegative(s, ExpenseOf);
  }

  // ---------------------------------------------------------------------------
  // getDateRange
  // ---------------------------------------------------------------------------

  /** The earliest date of the records (`Math.min` of the `getTime()` values). */
  function EarliestDate(s: seq<Expense>): (d: Date)
    requires |s| > 0
    ensures exists i :: 0 <= i < |s| && s[i].date == d
    ensures forall i :: 0 <= i < |s| ==> DateAtMost(d, s[i].date)
  {
    if |s| == 1 then s[0].date
    else
      var d := EarliestDate(s[..|s| - 1]);
      assert forall i :: 0 <= i < |s| - 1 ==> s[..|s| - 1][i] == s[i];
      if DateLess(s[|s| - 1].date, d) then s[|s| - 1].date else d
  }

  /** The latest date of the records (`Math.max` of the `getTime()` values). */
  function LatestDate(s: seq<Expense>): (d: Date)
    requires |s| > 0
    ensures exists i :: 0 <= i < |s| && s[i].date == d
    ensures forall i :: 0 <= i < |s| ==> DateAtMost(s[i].date, d)
  {
    if |s| == 1 then s[0].date
    else
      var d := LatestDate(s[..|s| - 1]);
      assert forall i :: 0 <= i < |s| - 1 ==> s[..|s| - 1][i] == s[i];
      if DateLess(d, s[|s| - 1].date) then s[|s| - 1].date else d
  }

  /**
   * `getDateRange`: none for no records; otherwise a start no later than the end, both
   * dates of some record, and every record's date between them.
   */
  function GetDateRange(expenses: seq<Expense>): (r: Option<DateRange>)
    ensures r.None? <==> |expenses| == 0
    ensures r.Some? ==>
      && DateAtMost(r.value.start, r.value.end)
      && (exists i :: 0 <= i < |expenses| && expenses[i].date == r.value.start)
      && (exists i :: 0 <= i < |expenses| && expenses[i].date == r.value.end)
      && (forall i :: 0 <= i < |expenses| ==>
            DateAtMost(r.value.start, expenses[i].date) && DateAtMost(expenses[i].date, r.value.end))
  {
    if |expenses| == 0 then None
    else
      var start, end := EarliestDate(expenses), LatestDate(expenses);
      assert DateAtMost(start, expenses[0].date) && DateAtMost(expenses[0].date, end);
      Some(DateRange(start, end))
  }

  // ---------------------------------------------------------------------------
  // getUniqueCategories
  // ---------------------------------------------------------------------------

  /** The category occurs in some record. */
  predicate HasCategory(s: seq<Expense>, c: string) {
    exists i :: 0 <= i < |s| && s[i].category == c
  }

  /** A key of `Keys` is the key of some record, and every record's key is one of them. */
  lemma KeysAreCategories(s: seq<Expense>, c: string)
    ensures c in Keys(s, CategoryOf) <==> HasCategory(s, c)
  {
    KeysSpec(s, CategoryOf);
    WhereSpec(s, CategoryOf, c);
    if c in Keys(s, CategoryOf) {
      var e := Where(s, CategoryOf, c)[0];
      assert e in s && e.category == c;
    }
  }

  /**
   * `getUniqueCategories`: the distinct categories of the records, each once, in
   * ascending string order.
   */
  function GetUniqueCategories(expenses: seq<Expense>): (categories: seq<string>)
    ensures StrictlySorted(categories, StringLess)
    ensures NoDup(categories)
    ensures forall c :: c in categories <==> HasCategory(expenses, c)
  {
    var keys := Keys(expenses, CategoryOf);
    KeysSpec(expenses, CategoryOf);
    StringOrder();
    SortSpec(keys, StringLess);
    assert forall c :: c in Sort(keys, StringLess) <==> c in multiset(keys);
    forall c ensures c in keys <==> HasCategory(expenses, c) {
      KeysAreCategories(expenses, c);
    }
    Sort(keys, StringLess)
  }

  // ---------------------------------------------------------------------------
  // categoryCounts
  // ---------------------------------------------------------------------------

  /** For each category occurring in the records, how many records have it. */
  function CategoryCounts(s: seq<Expense>): map<string, nat> {
    map c | c in Keys(s, CategoryOf) :: |Where(s, CategoryOf, c)|
  }

  /** One more record adds one to its category's count, starting from 0 (`(counts[c] || 0) + 1`). */
  lemma CategoryCountsAppend(s: seq<Expense>, e: Expense)
    ensures CategoryCounts(s + [e]) ==
      CategoryCounts(s)[e.category := (if e.category in CategoryCounts(s) then CategoryCounts(s)[e.category] else 0) + 1]
  {
    var before, after := CategoryCounts(s), CategoryCounts(s + [e]);
    var updated := before[e.category := (if e.category in before then before[e.category] else 0) + 1];
    KeysAppend(s, e, CategoryOf);
    assert forall c :: c in after <==> c in updated;
    forall c | c in after ensures after[c] == updated[c] {
      WhereAppend(s, e, CategoryOf, c);
      if c == e.category && c !in before {
        NotAKeyNoRecords(s, CategoryOf, c);
      }
    }
    assert after == updated;
  }

  /** The counts of the categories `ks`, added up. */
  function SumCounts(counts: map<string, nat>, ks: seq<string>): nat {
    if |ks| == 0 then 0
    else SumCounts(counts, ks[..|ks| - 1]) + (if ks[|ks| - 1] in counts then counts[ks[|ks| - 1]] else 0)
  }

  lemma {:induction false} SumCountsByKey(s: seq<Expense>, ks: seq<string>)
    ensures SumCounts(CategoryCounts(s), ks) == CountByKey(ks, s, CategoryOf)
  {
    if |ks| > 0 {
      SumCountsByKey(s, ks[..|ks| - 1]);
      var k := ks[|ks| - 1];
      if k !in Keys(s, CategoryOf) {
        NotAKeyNoRecords(s, CategoryOf, k);
      }
    }
  }

  /**
   * `categoryCounts` has a key for exactly the categories that occur, each counting the
   * records of that category, at least one; over the sorted categories the counts add
   * up to the number of records.
   */
  lemma CategoryCountsSpec(s: seq<Expense>)
    ensures forall c :: c in CategoryCounts(s) <==> HasCategory(s, c)
    ensures forall c :: c in CategoryCounts(s) ==>
      CategoryCounts(s)[c] == |Where(s, CategoryOf, c)| && CategoryCounts(s)[c] >= 1
    ensures SumCounts(CategoryCounts(s), GetUniqueCategories(s)) == |s|
  {
    KeysSpec(s, CategoryOf);
    forall c ensures c in CategoryCounts(s) <==> HasCategory(s, c) {
      KeysAreCategories(s, c);
    }
    var categories := GetUniqueCategories(s);
    SumCountsByKey(s, categories);
    forall i | 0 <= i < |s| ensures CategoryOf(s[i]) in categories {
      assert HasCategory(s, s[i].category);
    }
    GroupCount(categories, s, CategoryOf);
  }

  // ---------------------------------------------------------------------------
  // calculateSummary
  // ---------------------------------------------------------------------------

  /** The summary `calculateSummary` returns, field by field. */
  function Summarize(expenses: seq<Expense>): DataSummary {
    DataSummary(
      |expenses|,
      GetDateRange(expenses),
      GetUniqueCategories(expenses),
      GetTotalAmount(expenses),
      PositiveAmount(expenses),
      NegativeAmount(expenses),
      CategoryCounts(expenses))
  }

  /** No records: zero count, no date range, no categories, zero sums, no counts. */
  lemma SummaryOfNothing()
    ensures Summarize([]) == DataSummary(0, None, [], 0.0, 0.0, 0.0, map[])
  {
    assert Keys([], CategoryOf) == [];
    assert GetUniqueCategories([]) == [];
  }

  /** The `forEach` that fills `categoryCounts`, one record at a time. */
  method CountCategories(expenses: seq<Expense>) returns (categoryCounts: map<string, nat>)
    ensures categoryCounts == CategoryCounts(expenses)
  {
    categoryCounts := map[];
    for i := 0 to |expenses|
      invariant categoryCounts == CategoryCounts(expenses[..i])
    {
      var category := expenses[i].category;
      CategoryCountsAppend(expenses[..i], expenses[i]);
      assert expenses[..i + 1] == expenses[..i] + [expenses[i]];
      categoryCounts := categoryCounts[category := (if category in categoryCounts then categoryCounts[category] else 0) + 1];
    }
    assert expenses[..|expenses|] == expenses;
  }

  /**
   * `calculateSummary`: the early return for no records, otherwise the pieces above and
   * the per-category counts.
   */
  method CalculateSummary(expenses: seq<Expense>) returns (summary: DataSummary)
    ensures summary == Summarize(expenses)
    ensures summary.totalRecords == |expenses|
  {
    if |expenses| == 0 {
      SummaryOfNothing();
      return DataSummary(0, None, [], 0.0, 0.0, 0.0, map[]);
    }
    var categoryCounts := CountCategories(expenses);
    summary := DataSummary(
      |expenses|,
      GetDateRange(expenses),
      GetUniqueCategories(expenses),
      GetTotalAmount(expenses),
      PositiveAmount(expenses),
      NegativeAmount(expenses),
      categoryCounts);
  }
}
