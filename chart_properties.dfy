/**
 * What the chart series promise: one point per day or month that occurs, in
 * chronological order, each holding the sums of its own records; category bars with the
 * largest amount first, one per category, counting every record once; and series whose
 * income and expenses add up to the overall pair when the amounts are whole cents.
 */
module ChartProperties {
  import opened Wrappers
  import opened Calendar
  import opened Ordering
  import opened JsText
  import opened ExpenseTypes
  import opened Ledger
  import opened FixedPoint
  import opened StableSort
  import opened ChartLabels
  import opened DataProcessing
  import opened ChartDataProcessing

  // ---------------------------------------------------------------------------
  // Groups in sorted order
  // ---------------------------------------------------------------------------

  /**
   * The keys of a grouping, sorted: strictly increasing, each once, exactly the keys of
   * the records, each with at least one record.
   */
  lemma SortedGroups<K(!new)>(s: seq<Expense>, key: Expense -> K, less: (K, K) -> bool)
    requires StrictTotalOrder(less)
    ensures StrictlySorted(Sort(Keys(s, key), less), less) && NoDup(Sort(Keys(s, key), less))
    ensures forall k :: k in Sort(Keys(s, key), less) <==> exists i :: 0 <= i < |s| && key(s[i]) == k
    ensures forall k :: k in Sort(Keys(s, key), less) ==> k in Keys(s, key) && |Where(s, key, k)| > 0
  {
    KeysSpec(s, key);
    KeysOccur(s, key);
    SortedKeys(s, key, less);
    SortSpec(Keys(s, key), less);
  }

  /**
   * The days of the time series are in chronological order, each once, and are exactly
   * the days on which some record falls; each is a calendar day with an ISO key.
   */
  lemma {:induction false} DaysSpec(s: seq<Expense>)
    requires AllDated(s)
    ensures StrictlySorted(DaysOf(s), DateLess) && NoDup(DaysOf(s))
    ensures forall d :: d in DaysOf(s) <==> exists i :: 0 <= i < |s| && s[i].date == d
    ensures forall d :: d in DaysOf(s) ==> d in Keys(s, DayOf) && |Where(s, DayOf, d)| > 0
    ensures forall d :: d in DaysOf(s) ==> IsCalendarDay(d) && HasIsoKey(d)
  {
    DateOrder();
    SortedGroups(s, DayOf, DateLess);
    forall d | d in DaysOf(s) ensures IsCalendarDay(d) && HasIsoKey(d) {
      var i :| 0 <= i < |s| && DayOf(s[i]) == d;
      assert s[i] in s;
    }
  }

  /**
   * The months of the monthly series are in chronological order, each once, and are
   * exactly the months in which some record falls.
   */
  lemma {:induction false} MonthsSpec(s: seq<Expense>)
    requires AllDated(s)
    ensures StrictlySorted(MonthsOf(s), MonthLess) && NoDup(MonthsOf(s))
    ensures forall m :: m in MonthsOf(s) <==> exists i :: 0 <= i < |s| && MonthOf(s[i].date) == m
    ensures forall m :: m in MonthsOf(s) ==> m in Keys(s, MonthKeyOf) && |Where(s, MonthKeyOf, m)| > 0
    ensures forall m :: m in MonthsOf(s) ==> 1 <= m.month <= 12 && m.year >= 0
  {
    MonthOrder();
    SortedGroups(s, MonthKeyOf, MonthLess);
    MonthsAreKeyed(s);
  }

  // ---------------------------------------------------------------------------
  // prepareTimeSeriesData
  // ---------------------------------------------------------------------------

  /** A point made from the flow of a group holds that group's rounded sums, none negative. */
  lemma PointOfGroup(period: string, group: seq<Expense>)
    ensures Point(period, FlowOf(group)).income == ToFixed2(Total(group, IncomeOf)) >= 0.0
    ensures Point(period, FlowOf(group)).expenses == ToFixed2(Total(group, ExpenseOf)) >= 0.0
    ensures Point(period, FlowOf(group)).net == ToFixed2(Total(group, IncomeOf) - Total(group, ExpenseOf))
  {
    TotalNonNegative(group, IncomeOf);
    TotalNonNegative(group, ExpenseOf);
  }

  /**
   * The time series has one point per day on which a record falls, in chronological
   * order (`DaysSpec`); the point of a day is labelled with that day and holds the
   * income and the expenses of the records of that day, rounded to cents, and their
   * difference.
   */
  lemma TimeSeriesSpec(s: seq<Expense>)
    requires AllDated(s)
    ensures |TimeSeries(s)| == |DaysOf(s)|
    ensures forall i :: 0 <= i < |TimeSeries(s)| ==>
      var d := DaysOf(s)[i];
      var group := Where(s, DayOf, d);
      && IsCalendarDay(d)
      && TimeSeries(s)[i].period == DayLabel(d)
      && |group| > 0
      && TimeSeries(s)[i].income == ToFixed2(Total(group, IncomeOf)) >= 0.0
      && TimeSeries(s)[i].expenses == ToFixed2(Total(group, ExpenseOf)) >= 0.0
      && TimeSeries(s)[i].net == ToFixed2(Total(group, IncomeOf) - Total(group, ExpenseOf))
  {
    assert |TimeSeries(s)| == |DaysOf(s)|;
    forall i | 0 <= i < |TimeSeries(s)| ensures
      var d := DaysOf(s)[i];
      var group := Where(s, DayOf, d);
      && IsCalendarDay(d)
      && TimeSeries(s)[i].period == DayLabel(d)
      && |group| > 0
      && TimeSeries(s)[i].income == ToFixed2(Total(group, IncomeOf)) >= 0.0
      && TimeSeries(s)[i].expenses == ToFixed2(Total(group, ExpenseOf)) >= 0.0
      && TimeSeries(s)[i].net == ToFixed2(Total(group, IncomeOf) - Total(group, ExpenseOf))
    {
      DayPoint(s, i);
    }
  }

  /** The point of the `i`-th day is that day's group, labelled and rounded. */
  lemma DayPoint(s: seq<Expense>, i: nat)
    requires AllDated(s) && i < |TimeSeries(s)|
    ensures
      var d := DaysOf(s)[i];
      var group := Where(s, DayOf, d);
      && IsCalendarDay(d)
      && TimeSeries(s)[i].period == DayLabel(d)
      && |group| > 0
      && TimeSeries(s)[i].income == ToFixed2(Total(group, IncomeOf)) >= 0.0
      && TimeSeries(s)[i].expenses == ToFixed2(Total(group, ExpenseOf)) >= 0.0
      && TimeSeries(s)[i].net == ToFixed2(Total(group, IncomeOf) - Total(group, ExpenseOf))
  {
    var d := DaysOf(s)[i];
    var group := Where(s, DayOf, d);
    assert d in DaysOf(s);
    DaysAreKeyed(s);
    assert d in Keys(s, DayOf) && |group| > 0 by {
      assert d in Flows(s, DayOf);
      KeysSpec(s, DayOf);
    }
    assert TimeSeries(s)[i] == Point(DayLabel(d), FlowOf(group));
    PointOfGroup(DayLabel(d), group);
  }

  /** The ISO keys of a list of days. */
  function IsoKeys(days: seq<Date>): (keys: seq<string>)
    requires forall d :: d in days ==> HasIsoKey(d)
    ensures |keys| == |days|
  {
    seq(|days|, i requires 0 <= i < |days| => IsoDate(days[i]))
  }

  /** Different days have different ISO keys. */
  lemma IsoKeysNoDup(days: seq<Date>)
    requires forall d :: d in days ==> HasIsoKey(d)
    requires NoDup(days)
    ensures NoDup(IsoKeys(days))
  {
    var iso := IsoKeys(days);
    forall i, j | 0 <= i < j < |iso| ensures iso[i] != iso[j] {
      IsoDateInjective(days[i], days[j]);
    }
  }

  /** Days in chronological order have their ISO keys in string order. */
  lemma IsoKeysSorted(days: seq<Date>)
    requires forall d :: d in days ==> HasIsoKey(d)
    requires StrictlySorted(days, DateLess)
    ensures StrictlySorted(IsoKeys(days), StringLess)
  {
    var iso := IsoKeys(days);
    forall i, j | 0 <= i < j < |iso| ensures StringLess(iso[i], iso[j]) {
      IsoDateOrder(days[i], days[j]);
    }
  }

  /** The same days give the same ISO keys. */
  lemma IsoKeysMembers(a: seq<Date>, b: seq<Date>)
    requires forall d :: d in a ==> HasIsoKey(d)
    requires forall d :: d in a <==> d in b
    ensures forall x :: x in IsoKeys(a) ==> x in IsoKeys(b)
  {
    forall x | x in IsoKeys(a) ensures x in IsoKeys(b) {
      var i :| 0 <= i < |a| && IsoKeys(a)[i] == x;
      assert a[i] in b;
      var j :| 0 <= j < |b| && b[j] == a[i];
      assert IsoKeys(b)[j] == x;
    }
  }

  /**
   * The source keys the day map by ISO string and sorts the keys as strings; that sort
   * gives the ISO keys of the days in chronological order, so the series is emitted in
   * the order of `DaysOf`.
   */
  lemma TimeSeriesKeysInStringOrder(s: seq<Expense>)
    requires AllDated(s)
    ensures forall d :: d in Keys(s, DayOf) ==> HasIsoKey(d)
    ensures forall d :: d in DaysOf(s) ==> HasIsoKey(d)
    ensures Sort(IsoKeys(Keys(s, DayOf)), StringLess) == IsoKeys(DaysOf(s))
  {
    DaysSpec(s);
    KeysSpec(s, DayOf);
    SortedKeys(s, DayOf, DateLess);
    var keys, days := Keys(s, DayOf), DaysOf(s);
    var sorted := Sort(IsoKeys(keys), StringLess);
    StringOrder();
    IsoKeysNoDup(keys);
    SortSpec(IsoKeys(keys), StringLess);
    IsoKeysSorted(days);
    IsoKeysMembers(keys, days);
    IsoKeysMembers(days, keys);
    assert forall x :: x in sorted <==> x in IsoKeys(keys) by {
      forall x ensures x in sorted <==> x in IsoKeys(keys) {
        assert x in sorted <==> x in multiset(IsoKeys(keys));
      }
    }
    SortedUnique(sorted, IsoKeys(days), StringLess);
  }

  // ---------------------------------------------------------------------------
  // prepareMonthlyData
  // ---------------------------------------------------------------------------

  /**
   * The monthly series has one point per month in which a record falls, in
   * chronological order (`MonthsSpec`); the point of a month is labelled with its
   * `MM/YYYY` key and holds the income and the expenses of the records of that month,
   * rounded to cents, and their difference.
   */
  lemma MonthlySeriesSpec(s: seq<Expense>)
    requires AllDated(s)
    ensures |MonthlySeries(s)| == |MonthsOf(s)|
    ensures forall i :: 0 <= i < |MonthlySeries(s)| ==>
      var m := MonthsOf(s)[i];
      var group := Where(s, MonthKeyOf, m);
      && 1 <= m.month <= 12 && m.year >= 0
      && MonthlySeries(s)[i].period == MonthLabel(m)
      && |group| > 0
      && MonthlySeries(s)[i].income == ToFixed2(Total(group, IncomeOf)) >= 0.0
      && MonthlySeries(s)[i].expenses == ToFixed2(Total(group, ExpenseOf)) >= 0.0
      && MonthlySeries(s)[i].net == ToFixed2(Total(group, IncomeOf) - Total(group, ExpenseOf))
  {
    assert |MonthlySeries(s)| == |MonthsOf(s)|;
    forall i | 0 <= i < |MonthlySeries(s)| ensures
      var m := MonthsOf(s)[i];
      var group := Where(s, MonthKeyOf, m);
      && 1 <= m.month <= 12 && m.year >= 0
      && MonthlySeries(s)[i].period == MonthLabel(m)
      && |group| > 0
      && MonthlySeries(s)[i].income == ToFixed2(Total(group, IncomeOf)) >= 0.0
      && MonthlySeries(s)[i].expenses == ToFixed2(Total(group, ExpenseOf)) >= 0.0
      && MonthlySeries(s)[i].net == ToFixed2(Total(group, IncomeOf) - Total(group, ExpenseOf))
    {
      MonthPoint(s, i);
    }
  }

  /** The point of the `i`-th month is that month's group, labelled and rounded. */
  lemma MonthPoint(s: seq<Expense>, i: nat)
    requires AllDated(s) && i < |MonthlySeries(s)|
    ensures
      var m := MonthsOf(s)[i];
      var group := Where(s, MonthKeyOf, m);
      && 1 <= m.month <= 12 && m.year >= 0
      && MonthlySeries(s)[i].period == MonthLabel(m)
      && |group| > 0
      && MonthlySeries(s)[i].income == ToFixed2(Total(group, IncomeOf)) >= 0.0
      && MonthlySeries(s)[i].expenses == ToFixed2(Total(group, ExpenseOf)) >= 0.0
      && MonthlySeries(s)[i].net == ToFixed2(Total(group, IncomeOf) - Total(group, ExpenseOf))
  {
    var m := MonthsOf(s)[i];
    var group := Where(s, MonthKeyOf, m);
    assert m in MonthsOf(s);
    MonthsAreKeyed(s);
    assert m in Keys(s, MonthKeyOf) && |group| > 0 by {
      assert m in Flows(s, MonthKeyOf);
      KeysSpec(s, MonthKeyOf);
    }
    assert MonthlySeries(s)[i] == Point(MonthLabel(m), FlowOf(group));
    PointOfGroup(MonthLabel(m), group);
  }

  /**
   * The month keys come out in the comparator's order, each once, and the comparator
   * reads each key back as its month; a sort by that comparator therefore gives exactly
   * this order.
   */
  lemma MonthlyKeysInComparatorOrder(s: seq<Expense>)
    requires AllDated(s)
    ensures forall i, j :: 0 <= i < j < |MonthlySeries(s)| ==>
      MonthKeyBefore(MonthlySeries(s)[i].period, MonthlySeries(s)[j].period)
      && MonthlySeries(s)[i].period != MonthlySeries(s)[j].period
    ensures forall i :: 0 <= i < |MonthlySeries(s)| ==> ReadMonthKey(MonthlySeries(s)[i].period) == Some(MonthsOf(s)[i])
  {
    MonthlySeriesSpec(s);
    MonthsSpec(s);
    forall i, j | 0 <= i < j < |MonthlySeries(s)| ensures
      MonthKeyBefore(MonthlySeries(s)[i].period, MonthlySeries(s)[j].period)
      && MonthlySeries(s)[i].period != MonthlySeries(s)[j].period
    {
      MonthComparator(MonthsOf(s)[i], MonthsOf(s)[j]);
    }
    forall i | 0 <= i < |MonthlySeries(s)| ensures ReadMonthKey(MonthlySeries(s)[i].period) == Some(MonthsOf(s)[i]) {
      ReadMonthLabel(MonthsOf(s)[i]);
    }
  }

  // ---------------------------------------------------------------------------
  // prepareCategoryData
  // ---------------------------------------------------------------------------

  lemma {:induction false} SumOfAppend<T>(a: seq<T>, x: T, f: T -> int)
    ensures SumOf(a + [x], f) == SumOf(a, f) + f(x)
  {
    if |a| > 0 {
      assert (a + [x])[1..] == a[1..] + [x];
      SumOfAppend(a[1..], x, f);
    }
  }

  /** The counts of the bars of the categories `order` add up to their number of records. */
  lemma {:induction false} EntriesCount(s: seq<Expense>, order: seq<string>)
    requires forall c :: c in order ==> c in Tallies(s)
    ensures SumOf(CategoryEntries(order, Tallies(s)), CountOf) == CountByKey(order, s, CategoryOf)
  {
    if |order| > 0 {
      var init, c := order[..|order| - 1], order[|order| - 1];
      EntriesCount(s, init);
      var entries := CategoryEntries(order, Tallies(s));
      assert entries == CategoryEntries(init, Tallies(s)) + [entries[|order| - 1]];
      SumOfAppend(CategoryEntries(init, Tallies(s)), entries[|order| - 1], CountOf);
    }
  }

  /** The bar of the `i`-th category in first-encounter order. */
  lemma BarAt(s: seq<Expense>, i: nat)
    requires i < |Keys(s, CategoryOf)|
    ensures
      var c := Keys(s, CategoryOf)[i];
      var group := Where(s, CategoryOf, c);
      && CategoryBars(s)[i] == CategoryData(c, ToFixed2(Total(group, MagnitudeOf)), |group|)
      && |group| >= 1
      && ToFixed2(Total(group, MagnitudeOf)) >= 0.0
  {
    var c := Keys(s, CategoryOf)[i];
    var group := Where(s, CategoryOf, c);
    assert c in Keys(s, CategoryOf);
    assert |group| >= 1 by {
      KeysSpec(s, CategoryOf);
    }
    assert Tallies(s)[c] == TallyOf(group);
    assert Total(group, MagnitudeOf) >= 0.0 by {
      TotalNonNegative(group, MagnitudeOf);
    }
  }

  /**
   * Before sorting, there is one bar per category in first-encounter order; a bar counts
   * the records of its category and holds the sum of their absolute amounts, rounded to
   * cents; the counts add up to the number of records.
   */
  lemma CategoryBarsSpec(s: seq<Expense>)
    ensures |CategoryBars(s)| == |Keys(s, CategoryOf)|
    ensures forall i :: 0 <= i < |CategoryBars(s)| ==>
      var c := Keys(s, CategoryOf)[i];
      var group := Where(s, CategoryOf, c);
      && CategoryBars(s)[i].category == c
      && CategoryBars(s)[i].count == |group| >= 1
      && CategoryBars(s)[i].amount == ToFixed2(Total(group, MagnitudeOf)) >= 0.0
    ensures SumOf(CategoryBars(s), CountOf) == |s|
  {
    var keys := Keys(s, CategoryOf);
    forall i | 0 <= i < |keys| ensures
      var group := Where(s, CategoryOf, keys[i]);
      && CategoryBars(s)[i].category == keys[i]
      && CategoryBars(s)[i].count == |group| >= 1
      && CategoryBars(s)[i].amount == ToFixed2(Total(group, MagnitudeOf)) >= 0.0
    {
      BarAt(s, i);
    }
    KeysSpec(s, CategoryOf);
    EntriesCount(s, keys);
    GroupCount(keys, s, CategoryOf);
  }

  /** Each sorted bar is one of the bars before sorting. */
  lemma BarOrigin(s: seq<Expense>, i: nat) returns (k: nat)
    requires i < |CategorySeries(s)|
    ensures k < |CategoryBars(s)| && CategorySeries(s)[i] == CategoryBars(s)[k]
  {
    assert CategorySeries(s)[i] in multiset(CategoryBars(s));
    k :| 0 <= k < |CategoryBars(s)| && CategoryBars(s)[k] == CategorySeries(s)[i];
  }

  /** The bars have distinct categories, before and after sorting. */
  lemma BarsDistinct(s: seq<Expense>)
    ensures NoDup(CategoryBars(s))
    ensures forall i, j :: 0 <= i < j < |CategorySeries(s)| ==> CategorySeries(s)[i].category != CategorySeries(s)[j].category
  {
    var bars, data := CategoryBars(s), CategorySeries(s);
    var keys := Keys(s, CategoryOf);
    CategoryBarsSpec(s);
    assert NoDup(keys) by {
      KeysSpec(s, CategoryOf);
    }
    assert NoDup(bars) by {
      forall i, j | 0 <= i < j < |bars| ensures bars[i] != bars[j] {
        assert bars[i].category == keys[i] && bars[j].category == keys[j];
      }
    }
    SortDescNoDup(bars, AmountKey);
    forall i, j | 0 <= i < j < |data| ensures data[i].category != data[j].category {
      var k := BarOrigin(s, i);
      var l := BarOrigin(s, j);
      assert k == l || keys[k] != keys[l];
    }
  }

  /**
   * `prepareCategoryData`: the bars are ordered by amount, largest first; bars of equal
   * amount keep their first-encounter order (the sort is stable); there is exactly one
   * bar per category that occurs; a bar's count is that category's entry in
   * `categoryCounts`, at least one, and its amount the rounded sum of the absolute
   * amounts of its records; the counts add up to the number of records.
   */
  lemma CategorySpec(s: seq<Expense>)
    ensures NonIncreasing(CategorySeries(s), AmountKey)
    ensures multiset(CategorySeries(s)) == multiset(CategoryBars(s))
    ensures forall v :: WithKey(CategorySeries(s), AmountKey, v) == WithKey(CategoryBars(s), AmountKey, v)
    ensures forall c :: (exists i :: 0 <= i < |CategorySeries(s)| && CategorySeries(s)[i].category == c) <==> HasCategory(s, c)
    ensures forall i, j :: 0 <= i < j < |CategorySeries(s)| ==> CategorySeries(s)[i].category != CategorySeries(s)[j].category
    ensures forall i :: 0 <= i < |CategorySeries(s)| ==>
      var c := CategorySeries(s)[i].category;
      && c in CategoryCounts(s)
      && CategorySeries(s)[i].count == CategoryCounts(s)[c] >= 1
      && CategorySeries(s)[i].amount == ToFixed2(Total(Where(s, CategoryOf, c), MagnitudeOf)) >= 0.0
    ensures SumOf(CategorySeries(s), CountOf) == |s|
  {
    var bars, data := CategoryBars(s), CategorySeries(s);
    var keys := Keys(s, CategoryOf);
    CategoryBarsSpec(s);
    SortDescSorted(bars, AmountKey);
    forall v ensures WithKey(data, AmountKey, v) == WithKey(bars, AmountKey, v) {
      SortDescStable(bars, AmountKey, v);
    }
    SortDescSum(bars, AmountKey, CountOf);
    BarsDistinct(s);
    forall i | 0 <= i < |data| ensures
      var c := data[i].category;
      && c in CategoryCounts(s)
      && data[i].count == CategoryCounts(s)[c] >= 1
      && data[i].amount == ToFixed2(Total(Where(s, CategoryOf, c), MagnitudeOf)) >= 0.0
    {
      SortedBar(s, i);
    }
    forall c ensures (exists i :: 0 <= i < |data| && data[i].category == c) <==> HasCategory(s, c) {
      BarOfCategory(s, c);
    }
  }

  /** A sorted bar counts its category's records and holds the rounded sum of their absolute amounts. */
  lemma SortedBar(s: seq<Expense>, i: nat)
    requires i < |CategorySeries(s)|
    ensures
      var c := CategorySeries(s)[i].category;
      && c in CategoryCounts(s)
      && CategorySeries(s)[i].count == CategoryCounts(s)[c] >= 1
      && CategorySeries(s)[i].amount == ToFixed2(Total(Where(s, CategoryOf, c), MagnitudeOf)) >= 0.0
  {
    var k := BarOrigin(s, i);
    var keys := Keys(s, CategoryOf);
    assert k < |keys| && keys[k] in keys;
    BarAt(s, k);
  }

  /** There is a sorted bar for a category exactly when some record has it. */
  lemma BarOfCategory(s: seq<Expense>, c: string)
    ensures (exists i :: 0 <= i < |CategorySeries(s)| && CategorySeries(s)[i].category == c) <==> HasCategory(s, c)
  {
    var bars, data := CategoryBars(s), CategorySeries(s);
    var keys := Keys(s, CategoryOf);
    KeysAreCategories(s, c);
    if c in keys {
      var k :| 0 <= k < |keys| && keys[k] == c;
      BarAt(s, k);
      assert bars[k] in multiset(data);
      var i :| 0 <= i < |data| && data[i] == bars[k];
    }
    if i :| 0 <= i < |data| && data[i].category == c {
      var k := BarOrigin(s, i);
      BarAt(s, k);
      assert keys[k] in keys;
    }
  }

  // ---------------------------------------------------------------------------
  // prepareIncomeVsExpenses and whole cents
  // ---------------------------------------------------------------------------

  /** A record's contributions are whole cents when its amount is. */
  lemma ContributionsWholeCents(e: Expense)
    requires WholeCents(e.amount)
    ensures WholeCents(IncomeOf(e)) && WholeCents(ExpenseOf(e)) && WholeCents(MagnitudeOf(e))
  {
    WholeCentsSum(e.amount, 0.0);
    HundredthsAreWhole(0.0, 0);
  }

  /** A sum of whole cents is whole cents. */
  lemma {:induction false} TotalWholeCents(s: seq<Expense>, f: Expense -> real)
    requires forall i :: 0 <= i < |s| ==> WholeCents(f(s[i]))
    ensures WholeCents(Total(s, f))
  {
    if |s| == 0 {
      HundredthsAreWhole(0.0, 0);
    } else {
      TotalWholeCents(s[..|s| - 1], f);
      WholeCentsSum(Total(s[..|s| - 1], f), f(s[|s| - 1]));
    }
  }

  /** The income, expenses and magnitudes of whole-cent records sum to whole cents. */
  lemma SumsWholeCents(s: seq<Expense>)
    requires AllWholeCents(s)
    ensures WholeCents(Total(s, IncomeOf)) && WholeCents(Total(s, ExpenseOf)) && WholeCents(Total(s, MagnitudeOf))
  {
    forall i | 0 <= i < |s| ensures WholeCents(IncomeOf(s[i])) && WholeCents(ExpenseOf(s[i])) && WholeCents(MagnitudeOf(s[i])) {
      assert s[i] in s;
      ContributionsWholeCents(s[i]);
    }
    TotalWholeCents(s, IncomeOf);
    TotalWholeCents(s, ExpenseOf);
    TotalWholeCents(s, MagnitudeOf);
  }

  /** A group of whole-cent records is itself made of whole-cent records. */
  lemma GroupOfWholeCents<K>(s: seq<Expense>, key: Expense -> K, k: K)
    requires AllWholeCents(s)
    ensures AllWholeCents(Where(s, key, k))
  {
    WhereSpec(s, key, k);
  }

  /**
   * `prepareIncomeVsExpenses` reports the positive and the negated negative sum of the
   * summary, rounded to cents, neither negative; when every amount is whole cents the
   * rounding changes nothing and income minus expenses is the total amount.
   */
  lemma OverallSpec(s: seq<Expense>)
    ensures Overall(s).income == ToFixed2(PositiveAmount(s)) >= 0.0
    ensures Overall(s).expenses == ToFixed2(-NegativeAmount(s)) >= 0.0
    ensures AllWholeCents(s) ==>
      && Overall(s).income == PositiveAmount(s)
      && Overall(s).expenses == -NegativeAmount(s)
      && Overall(s).income - Overall(s).expenses == GetTotalAmount(s)
  {
    SignSplit(s);
    if AllWholeCents(s) {
      SumsWholeCents(s);
    }
  }

  // ---------------------------------------------------------------------------
  // The series add up
  // ---------------------------------------------------------------------------

  function PointIncome(p: SeriesPoint): real {
    p.income
  }

  function PointExpenses(p: SeriesPoint): real {
    p.expenses
  }

  /** The sum of a field over the points of a series. */
  function SumField(points: seq<SeriesPoint>, field: SeriesPoint -> real): real {
    if |points| == 0 then 0.0 else SumField(points[..|points| - 1], field) + field(points[|points| - 1])
  }

  /** Points that each hold the sum of their key's group add up to the sum by key. */
  lemma {:induction false} SeriesSum<K>(points: seq<SeriesPoint>, ks: seq<K>, s: seq<Expense>, key: Expense -> K,
                                        field: SeriesPoint -> real, f: Expense -> real)
    requires |points| == |ks|
    requires forall i :: 0 <= i < |ks| ==> field(points[i]) == Total(Where(s, key, ks[i]), f)
    ensures SumField(points, field) == SumByKey(ks, s, key, f)
  {
    if |ks| > 0 {
      SeriesSum(points[..|points| - 1], ks[..|ks| - 1], s, key, field, f);
    }
  }

  /**
   * With whole-cent amounts, each point of a series holds its group's exact income and
   * expenses, and its net is income minus expenses.
   */
  lemma ExactPoint(period: string, group: seq<Expense>)
    requires AllWholeCents(group)
    ensures Point(period, FlowOf(group)).income == Total(group, IncomeOf)
    ensures Point(period, FlowOf(group)).expenses == Total(group, ExpenseOf)
    ensures Point(period, FlowOf(group)).net == Point(period, FlowOf(group)).income - Point(period, FlowOf(group)).expenses
  {
    SumsWholeCents(group);
    WholeCentsSum(Total(group, IncomeOf), Total(group, ExpenseOf));
  }

  /**
   * With whole-cent amounts, the time series adds up to the income-versus-expenses pair:
   * its incomes sum to the overall income and its expenses to the overall expenses, and
   * each point's net is its income minus its expenses.
   */
  lemma TimeSeriesAddsUp(s: seq<Expense>)
    requires AllDated(s) && AllWholeCents(s)
    ensures SumField(TimeSeries(s), PointIncome) == Overall(s).income
    ensures SumField(TimeSeries(s), PointExpenses) == Overall(s).expenses
    ensures forall p :: p in TimeSeries(s) ==> p.net == p.income - p.expenses
  {
    var series, days := TimeSeries(s), DaysOf(s);
    DaysSpec(s);
    forall i | 0 <= i < |days| ensures
      && series[i] == Point(DayLabel(days[i]), FlowOf(Where(s, DayOf, days[i])))
      && PointIncome(series[i]) == Total(Where(s, DayOf, days[i]), IncomeOf)
      && PointExpenses(series[i]) == Total(Where(s, DayOf, days[i]), ExpenseOf)
      && series[i].net == series[i].income - series[i].expenses
    {
      assert days[i] in days;
      GroupOfWholeCents(s, DayOf, days[i]);
      ExactPoint(DayLabel(days[i]), Where(s, DayOf, days[i]));
    }
    SeriesSum(series, days, s, DayOf, PointIncome, IncomeOf);
    SeriesSum(series, days, s, DayOf, PointExpenses, ExpenseOf);
    GroupSum(days, s, DayOf, IncomeOf);
    GroupSum(days, s, DayOf, ExpenseOf);
    SumsWholeCents(s);
  }

  /**
   * With whole-cent amounts, the monthly series adds up to the income-versus-expenses
   * pair in the same way.
   */
  lemma MonthlySeriesAddsUp(s: seq<Expense>)
    requires AllDated(s) && AllWholeCents(s)
    ensures SumField(MonthlySeries(s), PointIncome) == Overall(s).income
    ensures SumField(MonthlySeries(s), PointExpenses) == Overall(s).expenses
    ensures forall p :: p in MonthlySeries(s) ==> p.net == p.income - p.expenses
  {
    var series, months := MonthlySeries(s), MonthsOf(s);
    MonthsSpec(s);
    forall i | 0 <= i < |months| ensures
      && series[i] == Point(MonthLabel(months[i]), FlowOf(Where(s, MonthKeyOf, months[i])))
      && PointIncome(series[i]) == Total(Where(s, MonthKeyOf, months[i]), IncomeOf)
      && PointExpenses(series[i]) == Total(Where(s, MonthKeyOf, months[i]), ExpenseOf)
      && series[i].net == series[i].income - series[i].expenses
    {
      assert months[i] in months;
      GroupOfWholeCents(s, MonthKeyOf, months[i]);
      ExactPoint(MonthLabel(months[i]), Where(s, MonthKeyOf, months[i]));
    }
    SeriesSum(series, months, s, MonthKeyOf, PointIncome, IncomeOf);
    SeriesSum(series, months, s, MonthKeyOf, PointExpenses, ExpenseOf);
    GroupSum(months, s, MonthKeyOf, IncomeOf);
    GroupSum(months, s, MonthKeyOf, ExpenseOf);
    SumsWholeCents(s);
  }

  /** No records: every series is empty and the pair is zero. */
  lemma ChartsOfNothing()
    ensures TimeSeries([]) == [] && MonthlySeries([]) == [] && CategorySeries([]) == []
    ensures Overall([]) == IncomeVsExpenses(0.0, 0.0)
  {
    assert Keys([], DayOf) == [] && Keys([], MonthKeyOf) == [] && Keys([], CategoryOf) == [];
    assert WholeCents(0.0) by {
      HundredthsAreWhole(0.0, 0);
    }
  }
}
