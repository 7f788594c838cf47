/**
 * The keys and labels of the chart series (src/utils/chartDataProcessing.ts): the
 * ISO day key `YYYY-MM-DD` and the order `.sort()` puts such keys in, the `DD/MM` day
 * label, the `MM/YYYY` month key and the comparator that sorts month keys, and the
 * day the time-series label names once time zones come into play.
 */
module ChartLabels {
  import opened Wrappers
  import opened Calendar
  import opened JsText
  import opened Validators

  // ---------------------------------------------------------------------------
  // Fixed-width decimal numbers and their string order
  // ---------------------------------------------------------------------------

  /** `n` in exactly `width` decimal digits, zero-padded on the left. */
  function FixedWidth(n: nat, width: nat): (ds: string)
    requires n < Pow10(width)
    ensures |ds| == width && AllDigits(ds)
  {
    if width == 0 then [] else FixedWidth(n / 10, width - 1) + [DigitChar(n % 10)]
  }

  lemma DigitCharOrder(i: nat, j: nat)
    requires i < 10 && j < 10
    ensures DigitChar(i) < DigitChar(j) <==> i < j
    ensures DigitChar(i) == DigitChar(j) <==> i == j
  {
  }

  /**
   * Strings that start with equally wide numbers compare as the numbers, and as what
   * follows when the numbers are equal.
   */
  lemma {:induction false} FixedWidthOrder(a: nat, b: nat, width: nat, r: string, t: string)
    requires a < Pow10(width) && b < Pow10(width)
    ensures StringLess(FixedWidth(a, width) + r, FixedWidth(b, width) + t) <==> a < b || (a == b && StringLess(r, t))
  {
    if width == 0 {
      assert FixedWidth(a, width) + r == r && FixedWidth(b, width) + t == t;
    } else {
      var ca, cb := DigitChar(a % 10), DigitChar(b % 10);
      assert FixedWidth(a, width) + r == FixedWidth(a / 10, width - 1) + ([ca] + r);
      assert FixedWidth(b, width) + t == FixedWidth(b / 10, width - 1) + ([cb] + t);
      FixedWidthOrder(a / 10, b / 10, width - 1, [ca] + r, [cb] + t);
      StringLessFirst(ca, cb, r, t);
      DigitCharOrder(a % 10, b % 10);
    }
  }

  /** Strings are compared on their first characters, then on the rest. */
  lemma StringLessFirst(c: char, e: char, r: string, t: string)
    ensures StringLess([c] + r, [e] + t) <==> c < e || (c == e && StringLess(r, t))
  {
    assert ([c] + r)[1..] == r && ([e] + t)[1..] == t;
  }

  /** A separator in front of both strings does not change their order. */
  lemma SeparatorOrder(c: char, r: string, t: string)
    ensures StringLess([c] + r, [c] + t) <==> StringLess(r, t)
  {
    StringLessFirst(c, c, r, t);
  }

  // ---------------------------------------------------------------------------
  // The day key: `toISOString().split('T')[0]`
  // ---------------------------------------------------------------------------

  /** A day whose ISO key has the `YYYY-MM-DD` shape (years 0 to 9999). */
  predicate HasIsoKey(d: Date) {
    0 <= d.year < 10000 && 1 <= d.month <= 12 && 1 <= d.day <= 31
  }

  /** The `YYYY-MM-DD` key of a day. */
  function IsoDate(d: Date): (key: string)
    requires HasIsoKey(d)
    ensures |key| == 10
  {
    assert Pow10(2) == 100 && Pow10(4) == 10000;
    FixedWidth(d.year, 4) + "-" + FixedWidth(d.month, 2) + "-" + FixedWidth(d.day, 2)
  }

  /**
   * `.sort()` puts ISO keys in chronological order: one key comes before another in
   * string order exactly when its day is earlier.
   */
  lemma IsoDateOrder(a: Date, b: Date)
    requires HasIsoKey(a) && HasIsoKey(b)
    ensures StringLess(IsoDate(a), IsoDate(b)) <==> DateLess(a, b)
  {
    assert Pow10(2) == 100 && Pow10(4) == 10000;
    var da, db := FixedWidth(a.day, 2), FixedWidth(b.day, 2);
    var ma, mb := "-" + FixedWidth(a.month, 2) + "-" + da, "-" + FixedWidth(b.month, 2) + "-" + db;
    assert IsoDate(a) == FixedWidth(a.year, 4) + ma && IsoDate(b) == FixedWidth(b.year, 4) + mb;
    FixedWidthOrder(a.year, b.year, 4, ma, mb);
    assert ma == ['-'] + (FixedWidth(a.month, 2) + ("-" + da));
    assert mb == ['-'] + (FixedWidth(b.month, 2) + ("-" + db));
    SeparatorOrder('-', FixedWidth(a.month, 2) + ("-" + da), FixedWidth(b.month, 2) + ("-" + db));
    FixedWidthOrder(a.month, b.month, 2, "-" + da, "-" + db);
    SeparatorOrder('-', da, db);
    assert da == FixedWidth(a.day, 2) + [] && db == FixedWidth(b.day, 2) + [];
    FixedWidthOrder(a.day, b.day, 2, [], []);
  }

  /** Different days have different ISO keys, so grouping by key is grouping by day. */
  lemma IsoDateInjective(a: Date, b: Date)
    requires HasIsoKey(a) && HasIsoKey(b)
    ensures IsoDate(a) == IsoDate(b) <==> a == b
  {
    if a != b {
      IsoDateOrder(a, b);
      IsoDateOrder(b, a);
      StringLessIrreflexive(IsoDate(a));
      assert DateLess(a, b) || DateLess(b, a) by {
        assert a.year != b.year || a.month != b.month || a.day != b.day;
      }
    }
  }

  // ---------------------------------------------------------------------------
  // The day label: `toLocaleDateString('fr-FR', { day: '2-digit', month: '2-digit' })`
  // ---------------------------------------------------------------------------

  /** `DD/MM`. */
  function DayMonthLabel(d: Date): string
    requires 0 <= d.day < 100 && 0 <= d.month < 100
  {
    TwoDigits(d.day) + "/" + TwoDigits(d.month)
  }

  /** The label of a day of the time series: the day and month of that day. */
  function DayLabel(d: Date): (text: string)
    requires IsCalendarDay(d)
    ensures |text| == 5
  {
    DayMonthLabel(d)
  }

  /** The label names its own day: split at `/`, it reads back as the day and the month. */
  lemma DayLabelReadsBack(d: Date)
    requires IsCalendarDay(d)
    ensures |Split(DayLabel(d), '/')| == 2
    ensures ParseInt(Split(DayLabel(d), '/')[0]) == Some(d.day)
    ensures ParseInt(Split(DayLabel(d), '/')[1]) == Some(d.month)
  {
    var a, b := TwoDigits(d.day), TwoDigits(d.month);
    assert Split(DayLabel(d), '/') == [a, b] by {
      assert DayLabel(d) == a + ['/'] + b;
      DigitsHaveNoSlash(a);
      DigitsHaveNoSlash(b);
      SplitAfterPiece(a, '/', b);
      SplitNone(b, '/');
    }
    ParseIntOfDigits(a);
    ParseIntOfDigits(b);
  }

  /** Two day labels are equal only for the same day and month. */
  lemma DayMonthLabelInjective(a: Date, b: Date)
    requires IsCalendarDay(a) && IsCalendarDay(b)
    ensures DayMonthLabel(a) == DayMonthLabel(b) ==> a.day == b.day && a.month == b.month
  {
    if DayMonthLabel(a) == DayMonthLabel(b) {
      DayLabelReadsBack(a);
      DayLabelReadsBack(b);
    }
  }

  // ---------------------------------------------------------------------------
  // The month key: `toLocaleDateString('fr-FR', { year: 'numeric', month: '2-digit' })`
  // ---------------------------------------------------------------------------

  /** `MM/YYYY` (the year in as many digits as it takes). */
  function MonthLabel(m: YearMonth): string
    requires 1 <= m.month <= 12 && m.year >= 0
  {
    TwoDigits(m.month) + "/" + NatToDigits(m.year)
  }

  /**
   * What the comparator reads from a month key: `const [month, year] = key.split('/')`
   * and `parseInt` of each. `None` when either reads as `NaN` (a missing part is
   * `undefined`, which `parseInt` also reads as `NaN`).
   */
  function ReadMonthKey(key: string): Option<YearMonth> {
    var parts := Split(key, '/');
    if |parts| < 2 then None
    else
      var month, year := ParseInt(parts[0]), ParseInt(parts[1]);
      if month.None? || year.None? then None else Some(YearMonth(year.value, month.value))
  }

  /**
   * The comparator's verdict that `a` sorts before `b`: the time of `new Date(yearA,
   * monthA - 1)` is smaller than that of `new Date(yearB, monthB - 1)`.
   */
  predicate MonthKeyBefore(a: string, b: string) {
    var x, y := ReadMonthKey(a), ReadMonthKey(b);
    x.Some? && y.Some? && MonthLess(x.value, y.value)
  }

  /** The comparator reads a month key back as the month it was made from. */
  lemma ReadMonthLabel(m: YearMonth)
    requires 1 <= m.month <= 12 && m.year >= 0
    ensures ReadMonthKey(MonthLabel(m)) == Some(m)
  {
    var a, b := TwoDigits(m.month), NatToDigits(m.year);
    assert MonthLabel(m) == a + ['/'] + b;
    DigitsHaveNoSlash(a);
    DigitsHaveNoSlash(b);
    SplitAfterPiece(a, '/', b);
    SplitNone(b, '/');
    ParseIntOfDigits(a);
    ParseIntOfDigits(b);
    NatToDigitsRoundTrip(m.year);
  }

  /**
   * The comparator sorts month keys chronologically, and different months have
   * different keys; so the keys end up in the order of their months.
   */
  lemma MonthComparator(x: YearMonth, y: YearMonth)
    requires 1 <= x.month <= 12 && x.year >= 0
    requires 1 <= y.month <= 12 && y.year >= 0
    ensures MonthKeyBefore(MonthLabel(x), MonthLabel(y)) <==> MonthLess(x, y)
    ensures MonthLabel(x) == MonthLabel(y) <==> x == y
  {
    ReadMonthLabel(x);
    ReadMonthLabel(y);
  }

  /** The plain string order would not do: "12/2023" sorts after "01/2024". */
  lemma MonthKeysAreNotInStringOrder()
    ensures MonthLess(YearMonth(2023, 12), YearMonth(2024, 1))
    ensures StringLess(MonthLabel(YearMonth(2024, 1)), MonthLabel(YearMonth(2023, 12)))
  {
    assert MonthLabel(YearMonth(2024, 1))[0] == '0';
    assert MonthLabel(YearMonth(2023, 12))[0] == '1';
  }

  // ---------------------------------------------------------------------------
  // Time zones: the label of the time series as written
  // ---------------------------------------------------------------------------

  /** The day before a calendar day. */
  function PreviousDay(d: Date): (p: Date)
    requires IsCalendarDay(d)
    ensures IsCalendarDay(p) && DateLess(p, d)
    ensures forall x :: DateLess(p, x) && DateLess(x, d) ==> !IsCalendarDay(x)
  {
    if d.day > 1 then Date(d.year, d.month, d.day - 1)
    else if d.month > 1 then Date(d.year, d.month - 1, DaysInMonth(d.year, d.month - 1))
    else Date(d.year - 1, 12, 31)
  }

  /**
   * A time-zone offset in minutes east of UTC (local time is UTC plus the offset), less
   * than a day either way.
   */
  predicate IsOffset(offsetMinutes: int) {
    -1440 < offsetMinutes < 1440
  }

  /**
   * The UTC day of local midnight on `d` (what `toISOString` writes for a date built by
   * `new Date(year, month - 1, day)`): east of UTC, local midnight is still the previous
   * day in UTC.
   */
  function UtcDayOfLocalMidnight(d: Date, offsetMinutes: int): Date
    requires IsCalendarDay(d) && IsOffset(offsetMinutes)
  {
    if offsetMinutes > 0 then PreviousDay(d) else d
  }

  /**
   * The local day of UTC midnight on `d` (what `new Date("YYYY-MM-DD")` denotes, shown
   * in local time): west of UTC, UTC midnight is still the previous day locally.
   */
  function LocalDayOfUtcMidnight(d: Date, offsetMinutes: int): Date
    requires IsCalendarDay(d) && IsOffset(offsetMinutes)
  {
    if offsetMinutes < 0 then PreviousDay(d) else d
  }

  /**
   * The label of the day `d` as `prepareTimeSeriesData` writes it: the ISO key is taken
   * from the UTC day of local midnight, parsed back as UTC midnight, and shown in
   * local time.
   */
  function DayLabelAsWritten(d: Date, offsetMinutes: int): string
    requires IsCalendarDay(d) && IsOffset(offsetMinutes)
  {
    var key := UtcDayOfLocalMidnight(d, offsetMinutes);
    DayMonthLabel(LocalDayOfUtcMidnight(key, offsetMinutes))
  }

  /**
   * In UTC the label as written names the right day; in every other time zone it names
   * the day before, and so never the day the bucket holds.
   */
  lemma DayLabelAsWrittenShifts(d: Date, offsetMinutes: int)
    requires IsCalendarDay(d) && IsOffset(offsetMinutes)
    ensures offsetMinutes == 0 ==> DayLabelAsWritten(d, offsetMinutes) == DayLabel(d)
    ensures offsetMinutes != 0 ==> DayLabelAsWritten(d, offsetMinutes) == DayMonthLabel(PreviousDay(d))
    ensures offsetMinutes != 0 ==> DayLabelAsWritten(d, offsetMinutes) != DayLabel(d)
  {
    var p := PreviousDay(d);
    DayMonthLabelInjective(p, d);
    assert p.day != d.day || p.month != d.month;
  }

  /** In Paris (one hour east of UTC) the expenses of 15/01/2024 are labelled "14/01". */
  lemma DayLabelInParis()
    ensures DayLabel(Date(2024, 1, 15)) == "15/01"
    ensures DayLabelAsWritten(Date(2024, 1, 15), 60) == "14/01"
  {
  }
}
