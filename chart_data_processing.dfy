/**
 * The chart series (src/utils/chartDataProcessing.ts): income and expenses per day and
 * per month, amount and count per category, and the overall income and expenses.
 *
 * Each `prepare*` function fills a JavaScript `Map` of accumulators in one pass over
 * the expenses; here that pass is a method whose loop keeps the map equal to a
 * function of the records seen so far, and the final sort-and-emit step is a function.
 */
module ChartDataProcessing {
  import opened Calendar
  import opened Ordering
  import opened JsText
  import opened ExpenseTypes
  import opened Ledger
  import opened FixedPoint
  import opened StableSort
  import opened ChartLabels
  import opened DataProcessing

  // ---------------------------------------------------------------------------
  // Data
  // ---------------------------------------------------------------------------

  /** The `{ income, expenses }` accumulator of a day or a month. */
  datatype Flow = Flow(income: real, expenses: real)

  /**
   * A point of the time series (`TimeSeriesData`, where `period` is its `date`) or of
   * the monthly series (`MonthlyData`, where `period` is its `month`); both have the
   * same shape.
   */
  datatype SeriesPoint = SeriesPoint(period: string, income: real, expenses: real, net: real)

  /** The `{ amount, count }` accumulator of a category. */
  datatype Tally = Tally(amount: real, count: nat)

  /** A bar of the category chart (`CategoryData`). */
  datatype CategoryData = CategoryData(category: string, amount: real, count: nat)

  /** The result of `prepareIncomeVsExpenses`. */
  datatype IncomeVsExpenses = IncomeVsExpenses(income: real, expenses: real)

  /**
   * A record whose date can be keyed and labelled: a calendar day (as every JavaScript
   * `Date` is) in a year of at most four digits.
   */
  predicate Dated(e: Expense) {
    IsCalendarDay(e.date) && 0 <= e.date.year < 10000
  }

  predicate AllDated(s: seq<Expense>) {
    forall e :: e in s ==> Dated(e)
  }

  /** Every amount is a whole number of cents. */
  predicate AllWholeCents(s: seq<Expense>) {
    forall e :: e in s ==> WholeCents(e.amount)
  }

  // ---------------------------------------------------------------------------
  // Accumulators
  // ---------------------------------------------------------------------------

  /** One record added to a flow: a positive amount to income, otherwise its absolute value to expenses. */
  function AddToFlow(f: Flow, e: Expense): Flow {
    if e.amount > 0.0 then f.(income := f.income + e.amount)
    else f.(expenses := f.expenses + MagnitudeOf(e))
  }

  /** The flow of a group of records: the sum of its income and of its expenses. */
  function FlowOf(group: seq<Expense>): Flow {
    Flow(Total(group, IncomeOf), Total(group, ExpenseOf))
  }

  lemma FlowOfAppend(group: seq<Expense>, e: Expense)
    ensures FlowOf(group + [e]) == AddToFlow(FlowOf(group), e)
  {
    TotalAppend(group, e, IncomeOf);
    TotalAppend(group, e, ExpenseOf);
  }

  /** The accumulator map after a pass: for each key that occurs, the flow of its records. */
  function Flows<K(==)>(s: seq<Expense>, key: Expense -> K): map<K, Flow> {
    map k | k in Keys(s, key) :: FlowOf(Where(s, key, k))
  }

  /** What one step of the pass does to the map: `get(key) || { income: 0, expenses: 0 }`, add, `set`. */
  lemma FlowsAppend<K>(s: seq<Expense>, e: Expense, key: Expense -> K)
    ensures Flows(s + [e], key) ==
      Flows(s, key)[key(e) := AddToFlow(if key(e) in Flows(s, key) then Flows(s, key)[key(e)] else Flow(0.0, 0.0), e)]
  {
    var before, after := Flows(s, key), Flows(s + [e], key);
    var updated := before[key(e) := AddToFlow(if key(e) in before then before[key(e)] else Flow(0.0, 0.0), e)];
    KeysAppend(s, e, key);
    assert forall k :: k in after <==> k in updated;
    forall k | k in after ensures after[k] == updated[k] {
      WhereAppend(s, e, key, k);
      if k == key(e) {
        FlowOfAppend(Where(s, key, k), e);
        if k !in before {
          NotAKeyNoRecords(s, key, k);
          assert FlowOf(Where(s, key, k)) == Flow(0.0, 0.0);
        }
        assert after[k] == AddToFlow(FlowOf(Where(s, key, k)), e);
      } else {
        assert Where(s + [e], key, k) == Where(s, key, k);
      }
    }
    assert after == updated;
  }

  /** One step of the pass over `s`, at record `i`: the map and its key order. */
  lemma FlowsStep<K>(s: seq<Expense>, i: nat, key: Expense -> K)
    requires i < |s|
    ensures Flows(s[..i + 1], key) == Flows(s[..i], key)[key(s[i]) :=
      AddToFlow(if key(s[i]) in Flows(s[..i], key) then Flows(s[..i], key)[key(s[i])] else Flow(0.0, 0.0), s[i])]
    ensures Keys(s[..i + 1], key) ==
      if key(s[i]) in Flows(s[..i], key) then Keys(s[..i], key) else Keys(s[..i], key) + [key(s[i])]
  {
    assert s[..i + 1] == s[..i] + [s[i]];
    FlowsAppend(s[..i], s[i], key);
    KeysAppend(s[..i], s[i], key);
  }

  /** What one record adds to a category: its absolute amount and one to the count. */
  function AddToTally(t: Tally, e: Expense): Tally {
    Tally(t.amount + MagnitudeOf(e), t.count + 1)
  }

  function TallyOf(group: seq<Expense>): Tally {
    Tally(Total(group, MagnitudeOf), |group|)
  }

  /** The category map after a pass: for each category, the tally of its records. */
  function Tallies(s: seq<Expense>): map<string, Tally> {
    map c | c in Keys(s, CategoryOf) :: TallyOf(Where(s, CategoryOf, c))
  }

  /** One record changes only the tally of its own category. */
  lemma TallyOfAppend(s: seq<Expense>, e: Expense, c: string)
    ensures TallyOf(Where(s + [e], CategoryOf, c)) ==
      if c == e.category then AddToTally(TallyOf(Where(s, CategoryOf, c)), e) else TallyOf(Where(s, CategoryOf, c))
  {
    var group := Where(s, CategoryOf, c);
    assert Where(s + [e], CategoryOf, c) == if c == e.category then group + [e] else group by {
      WhereAppend(s, e, CategoryOf, c);
    }
    if c == e.category {
      TotalAppend(group, e, MagnitudeOf);
      assert |group + [e]| == |group| + 1;
    }
  }

  lemma TalliesAppend(s: seq<Expense>, e: Expense)
    ensures Tallies(s + [e]) ==
      Tallies(s)[e.category := AddToTally(if e.category in Tallies(s) then Tallies(s)[e.category] else Tally(0.0, 0), e)]
  {
    var before, after := Tallies(s), Tallies(s + [e]);
    var updated := before[e.category := AddToTally(if e.category in before then before[e.category] else Tally(0.0, 0), e)];
    KeysAppend(s, e, CategoryOf);
    assert forall k :: k in after <==> k in updated;
    forall k | k in after ensures after[k] == updated[k] {
      TallyOfAppend(s, e, k);
      if k == e.category && k !in before {
        NotAKeyNoRecords(s, CategoryOf, k);
        assert TallyOf(Where(s, CategoryOf, k)) == Tally(0.0, 0);
      }
    }
    assert after == updated;
  }

  lemma TalliesStep(s: seq<Expense>, i: nat)
    requires i < |s|
    ensures Tallies(s[..i + 1]) == Tallies(s[..i])[s[i].category :=
      AddToTally(if s[i].category in Tallies(s[..i]) then Tallies(s[..i])[s[i].category] else Tally(0.0, 0), s[i])]
    ensures Keys(s[..i + 1], CategoryOf) ==
      if s[i].category in Tallies(s[..i]) then Keys(s[..i], CategoryOf) else Keys(s[..i], CategoryOf) + [s[i].category]
  {
    assert s[..i + 1] == s[..i] + [s[i]];
    TalliesAppend(s[..i], s[i]);
    KeysAppend(s[..i], s[i], CategoryOf);
  }

  // ---------------------------------------------------------------------------
  // Emission
  // ---------------------------------------------------------------------------

  /** A point: the label and the rounded income, expenses and net (`parseFloat(x.toFixed(2))`). */
  function Point(period: string, f: Flow): SeriesPoint {
    SeriesPoint(period, ToFixed2(f.income), ToFixed2(f.expenses), ToFixed2(f.income - f.expenses))
  }

  /** `sortedDates.map(...)`: one point per day, labelled `DD/MM`. */
  function DailyPoints(sortedDates: seq<Date>, dailyMap: map<Date, Flow>): (series: seq<SeriesPoint>)
    requires forall d :: d in sortedDates ==> d in dailyMap && IsCalendarDay(d)
    ensures |series| == |sortedDates|
  {
    seq(|sortedDates|, i requires 0 <= i < |sortedDates| => Point(DayLabel(sortedDates[i]), dailyMap[sortedDates[i]]))
  }

  /** `sortedMonths.map(...)`: one point per month, labelled with its `MM/YYYY` key. */
  function MonthlyPoints(sortedMonths: seq<YearMonth>, monthlyMap: map<YearMonth, Flow>): (series: seq<SeriesPoint>)
    requires forall m :: m in sortedMonths ==> m in monthlyMap && 1 <= m.month <= 12 && m.year >= 0
    ensures |series| == |sortedMonths|
  {
    seq(|sortedMonths|, i requires 0 <= i < |sortedMonths| => Point(MonthLabel(sortedMonths[i]), monthlyMap[sortedMonths[i]]))
  }

  /** `Array.from(categoryMap.entries()).map(...)`: one bar per category, in map order. */
  function CategoryEntries(order: seq<string>, categoryMap: map<string, Tally>): (entries: seq<CategoryData>)
    requires forall c :: c in order ==> c in categoryMap
    ensures |entries| == |order|
  {
    seq(|order|, i requires 0 <= i < |order| =>
      CategoryData(order[i], ToFixed2(categoryMap[order[i]].amount), categoryMap[order[i]].count))
  }

  function AmountKey(d: CategoryData): real {
    d.amount
  }

  function CountOf(d: CategoryData): int {
    d.count
  }

  // ---------------------------------------------------------------------------
  // The series as functions of the records
  // ---------------------------------------------------------------------------

  /** Every key of a grouping is the key of some record. */
  lemma KeysOccur<K>(s: seq<Expense>, key: Expense -> K)
    ensures forall k :: k in Keys(s, key) ==> exists i :: 0 <= i < |s| && key(s[i]) == k
  {
    KeysSpec(s, key);
    forall k | k in Keys(s, key) ensures exists i :: 0 <= i < |s| && key(s[i]) == k {
      WhereSpec(s, key, k);
      assert Where(s, key, k)[0] in s;
    }
  }

  /** The keys, sorted, are the keys. */
  lemma SortedKeys<K>(s: seq<Expense>, key: Expense -> K, less: (K, K) -> bool)
    ensures forall k :: k in Sort(Keys(s, key), less) <==> k in Keys(s, key)
  {
    forall k ensures k in Sort(Keys(s, key), less) <==> k in Keys(s, key) {
      assert k in Sort(Keys(s, key), less) <==> k in multiset(Sort(Keys(s, key), less));
    }
  }

  /** The days of the records, in the order of their sorted ISO keys. */
  function DaysOf(s: seq<Expense>): seq<Date> {
    Sort(Keys(s, DayOf), DateLess)
  }

  /** The months of the records, in the comparator's order. */
  function MonthsOf(s: seq<Expense>): seq<YearMonth> {
    Sort(Keys(s, MonthKeyOf), MonthLess)
  }

  /** Every day to emit is a calendar day with an entry in the map. */
  lemma DaysAreKeyed(s: seq<Expense>)
    requires AllDated(s)
    ensures forall d :: d in DaysOf(s) ==> d in Flows(s, DayOf) && IsCalendarDay(d)
  {
    KeysOccur(s, DayOf);
    SortedKeys(s, DayOf, DateLess);
    forall d | d in DaysOf(s) ensures IsCalendarDay(d) {
      var i :| 0 <= i < |s| && DayOf(s[i]) == d;
      assert s[i] in s;
    }
  }

  /** Every month to emit has an entry in the map and a label. */
  lemma MonthsAreKeyed(s: seq<Expense>)
    requires AllDated(s)
    ensures forall m :: m in MonthsOf(s) ==> m in Flows(s, MonthKeyOf) && 1 <= m.month <= 12 && m.year >= 0
  {
    KeysOccur(s, MonthKeyOf);
    SortedKeys(s, MonthKeyOf, MonthLess);
    forall m | m in MonthsOf(s) ensures 1 <= m.month <= 12 && m.year >= 0 {
      var i :| 0 <= i < |s| && MonthKeyOf(s[i]) == m;
      assert s[i] in s;
    }
  }

  /** The time series `prepareTimeSeriesData` returns. */
  function TimeSeries(s: seq<Expense>): seq<SeriesPoint>
    requires AllDated(s)
  {
    DaysAreKeyed(s);
    DailyPoints(DaysOf(s), Flows(s, DayOf))
  }

  /** The monthly series `prepareMonthlyData` returns. */
  function MonthlySeries(s: seq<Expense>): seq<SeriesPoint>
    requires AllDated(s)
  {
    MonthsAreKeyed(s);
    MonthlyPoints(MonthsOf(s), Flows(s, MonthKeyOf))
  }

  /** The category bars in first-encounter order, before sorting. */
  function CategoryBars(s: seq<Expense>): seq<CategoryData> {
    CategoryEntries(Keys(s, CategoryOf), Tallies(s))
  }

  /** The category bars `prepareCategoryData` returns: sorted by amount, largest first. */
  function CategorySeries(s: seq<Expense>): seq<CategoryData> {
    SortDesc(CategoryBars(s), AmountKey)
  }

  /** The pair `prepareIncomeVsExpenses` returns. */
  function Overall(s: seq<Expense>): IncomeVsExpenses {
    IncomeVsExpenses(ToFixed2(Total(s, IncomeOf)), ToFixed2(Total(s, ExpenseOf)))
  }

  // ---------------------------------------------------------------------------
  // The four passes
  // ---------------------------------------------------------------------------

  /** `prepareTimeSeriesData`. */
  method PrepareTimeSeriesData(expenses: seq<Expense>) returns (series: seq<SeriesPoint>)
    requires AllDated(expenses)
    ensures series == TimeSeries(expenses)
  {
    var dailyMap: map<Date, Flow> := map[];
    assert Flows(expenses[..0], DayOf) == map[];
    var dateKeys: seq<Date> := [];
    for i := 0 to |expenses|
      invariant dailyMap == Flows(expenses[..i], DayOf)
      invariant dateKeys == Keys(expenses[..i], DayOf)
    {
      FlowsStep(expenses, i, DayOf);
      var expense := expenses[i];
      var dateKey := expense.date;
      var previous := if dateKey in dailyMap then dailyMap[dateKey] else Flow(0.0, 0.0);
      var current := previous;
      if expense.amount > 0.0 {
        current := current.(income := current.income + expense.amount);
      } else {
        current := current.(expenses := current.expenses + MagnitudeOf(expense));
      }
      assert current == AddToFlow(previous, expense);
      if dateKey !in dailyMap {
        dateKeys := dateKeys + [dateKey];
      }
      dailyMap := dailyMap[dateKey := current];
    }
    assert expenses[..|expenses|] == expenses;
    var sortedDates := Sort(dateKeys, DateLess);
    DaysAreKeyed(expenses);
    series := DailyPoints(sortedDates, dailyMap);
  }

  /** `prepareCategoryData`. */
  method PrepareCategoryData(expenses: seq<Expense>) returns (data: seq<CategoryData>)
    ensures data == CategorySeries(expenses)
  {
    var categoryMap: map<string, Tally> := map[];
    var categories: seq<string> := [];
    assert Tallies(expenses[..0]) == map[];
    for i := 0 to |expenses|
      invariant categoryMap == Tallies(expenses[..i])
      invariant categories == Keys(expenses[..i], CategoryOf)
    {
      TalliesStep(expenses, i);
      var expense := expenses[i];
      var previous := if expense.category in categoryMap then categoryMap[expense.category] else Tally(0.0, 0);
      var current := previous.(amount := previous.amount + MagnitudeOf(expense));
      current := current.(count := current.count + 1);
      assert current == AddToTally(previous, expense);
      if expense.category !in categoryMap {
        categories := categories + [expense.category];
      }
      categoryMap := categoryMap[expense.category := current];
    }
    assert expenses[..|expenses|] == expenses;
    data := SortDesc(CategoryEntries(categories, categoryMap), AmountKey);
  }

  /** `prepareMonthlyData`. */
  method PrepareMonthlyData(expenses: seq<Expense>) returns (series: seq<SeriesPoint>)
    requires AllDated(expenses)
    ensures series == MonthlySeries(expenses)
  {
    var monthlyMap: map<YearMonth, Flow> := map[];
    assert Flows(expenses[..0], MonthKeyOf) == map[];
    var monthKeys: seq<YearMonth> := [];
    for i := 0 to |expenses|
      invariant monthlyMap == Flows(expenses[..i], MonthKeyOf)
      invariant monthKeys == Keys(expenses[..i], MonthKeyOf)
    {
      FlowsStep(expenses, i, MonthKeyOf);
      var expense := expenses[i];
      var monthKey := MonthOf(expense.date);
      var previous := if monthKey in monthlyMap then monthlyMap[monthKey] else Flow(0.0, 0.0);
      var current := previous;
      if expense.amount > 0.0 {
        current := current.(income := current.income + expense.amount);
      } else {
        current := current.(expenses := current.expenses + MagnitudeOf(expense));
      }
      assert current == AddToFlow(previous, expense);
      if monthKey !in monthlyMap {
        monthKeys := monthKeys + [monthKey];
      }
      monthlyMap := monthlyMap[monthKey := current];
    }
    assert expenses[..|expenses|] == expenses;
    var sortedMonths := Sort(monthKeys, MonthLess);
    MonthsAreKeyed(expenses);
    series := MonthlyPoints(sortedMonths, monthlyMap);
  }

  /** `prepareIncomeVsExpenses`. */
  method PrepareIncomeVsExpenses(expenses: seq<Expense>) returns (result: IncomeVsExpenses)
    ensures result == Overall(expenses)
  {
    var income := 0.0;
    var expensesTotal := 0.0;
    for i := 0 to |expenses|
      invariant income == Total(expenses[..i], IncomeOf)
      invariant expensesTotal == Total(expenses[..i], ExpenseOf)
    {
      var expense := expenses[i];
      TotalAppend(expenses[..i], expense, IncomeOf);
      TotalAppend(expenses[..i], expense, ExpenseOf);
      assert expenses[..i + 1] == expenses[..i] + [expense];
      if expense.amount > 0.0 {
        income := income + expense.amount;
      } else {
        expensesTotal := expensesTotal + MagnitudeOf(expense);
      }
    }
    assert expenses[..|expenses|] == expenses;
    return IncomeVsExpenses(ToFixed2(income), ToFixed2(expensesTotal));
  }
}
