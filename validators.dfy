/**
 * Field and structure validators (src/utils/validators.ts). A raw cell is an optional
 * string: `None` is JavaScript's `undefined`, the value of a column that is absent
 * from the row.
 */
module Validators {
  import opened Wrappers
  import opened Calendar
  import opened JsText

  /** A row as the tokenizer yields it: column name to cell text. */
  type Row = map<string, string>

  type Cell = Option<string>

  /** `row[column]`: `undefined` when the row has no such column. */
  function Field(row: Row, column: string): Cell {
    if column in row then Some(row[column]) else None
  }

  /** A present, non-empty string (the guard `!s || typeof s !== 'string'` rejects everything else). */
  predicate Truthy(cell: Cell) {
    cell.Some? && cell.value != ""
  }

  // ---------------------------------------------------------------------------
  // validateDate
  // ---------------------------------------------------------------------------

  /** The `/`-separated pieces of the trimmed text. */
  function DateParts(text: string): seq<string> {
    Split(Trim(text), '/')
  }

  /**
   * `validateDate`: a present, non-empty text, trimmed and split at `/`; the pieces are
   * then checked by `ValidateDateParts`.
   */
  function ValidateDate(dateStr: Cell): (r: Option<Date>)
    ensures r.Some? ==> IsCalendarDay(r.value) && 1900 <= r.value.year <= 2100
  {
    if !Truthy(dateStr) then None else ValidateDateParts(DateParts(dateStr.value))
  }

  /** Exactly three pieces, read with `parseInt` as day, month and year. */
  function ValidateDateParts(parts: seq<string>): (r: Option<Date>)
    ensures r.Some? ==> IsCalendarDay(r.value) && 1900 <= r.value.year <= 2100
  {
    if |parts| != 3 then None
    else ValidateDateNumbers(ParseInt(parts[0]), ParseInt(parts[1]), ParseInt(parts[2]))
  }

  /**
   * The numeric checks: no `NaN`, the day in 1..31, the month in 1..12, the year in
   * 1900..2100, then `new Date(year, month - 1, day)` must give back the same day, month
   * and year (a day past the end of its month rolls over and is refused).
   */
  function ValidateDateNumbers(day: Option<int>, month: Option<int>, year: Option<int>): (r: Option<Date>)
    ensures r.Some? ==> IsCalendarDay(r.value) && 1900 <= r.value.year <= 2100
  {
    if day.None? || month.None? || year.None? then None
    else if day.value < 1 || day.value > 31 then None
    else if month.value < 1 || month.value > 12 then None
    else if year.value < 1900 || year.value > 2100 then None
    else
      var date := NewDate(year.value, month.value - 1, day.value);
      if date.day != day.value || date.month - 1 != month.value - 1 || date.year != year.value then None
      else Some(date)
  }

  /** The numbers are accepted, as `d`, exactly when they are the day, month and year of a calendar day `d` in 1900..2100. */
  lemma ValidateDateNumbersSpec(day: Option<int>, month: Option<int>, year: Option<int>, d: Date)
    ensures ValidateDateNumbers(day, month, year) == Some(d) <==>
      day == Some(d.day) && month == Some(d.month) && year == Some(d.year) && IsCalendarDay(d) && 1900 <= d.year <= 2100
  {
    if day.Some? && month.Some? && year.Some? && 1 <= day.value <= 31 && 1 <= month.value <= 12 {
      NewDateRoundTrip(year.value, month.value, day.value);
    }
  }

  /**
   * Exactly the accepted inputs: a present, non-empty text whose trimmed form has three
   * `/`-separated parts, which `parseInt` reads as the day, month and year of a calendar
   * day in the years 1900 to 2100; the date returned is that day.
   */
  lemma ValidateDateSpec(dateStr: Cell, d: Date)
    ensures ValidateDate(dateStr) == Some(d) <==>
      && Truthy(dateStr)
      && |DateParts(dateStr.value)| == 3
      && ParseInt(DateParts(dateStr.value)[0]) == Some(d.day)
      && ParseInt(DateParts(dateStr.value)[1]) == Some(d.month)
      && ParseInt(DateParts(dateStr.value)[2]) == Some(d.year)
      && IsCalendarDay(d)
      && 1900 <= d.year <= 2100
  {
    if Truthy(dateStr) && |DateParts(dateStr.value)| == 3 {
      var parts := DateParts(dateStr.value);
      ValidateDateNumbersSpec(ParseInt(parts[0]), ParseInt(parts[1]), ParseInt(parts[2]), d);
    }
  }

  /** Three pieces without `/`, the first starting and the last ending with a digit, joined by `/`, split back into those pieces. */
  lemma DatePartsOf(a: string, b: string, c: string)
    requires '/' !in a && '/' !in b && '/' !in c
    requires |a| > 0 && IsDigit(a[0]) && |c| > 0 && IsDigit(c[|c| - 1])
    ensures DateParts(a + "/" + b + "/" + c) == [a, b, c]
  {
    var s := a + "/" + b + "/" + c;
    assert s == a + ['/'] + (b + ['/'] + c);
    assert s[0] == a[0] && s[|s| - 1] == c[|c| - 1];
    TrimOfTrimmed(s);
    SplitAfterPiece(a, '/', b + ['/'] + c);
    SplitAfterPiece(b, '/', c);
    SplitNone(c, '/');
  }

  /**
   * `parseInt` stops at the first character that is not a digit, so a day followed by
   * anything else but `/` still reads as that day: "1x/02/2024" is validated exactly as
   * "1/02/2024" is.
   */
  lemma ValidateDateIgnoresTrailing(ds: string, x: char, ms: string, ys: string)
    requires AllDigits(ds) && AllDigits(ms) && AllDigits(ys) && |ds| > 0 && |ys| > 0
    requires !IsDigit(x) && x != '/'
    ensures ValidateDate(Some(ds + [x] + "/" + ms + "/" + ys)) == ValidateDate(Some(ds + "/" + ms + "/" + ys))
  {
    var dx := ds + [x];
    DigitsHaveNoSlash(ds);
    DigitsHaveNoSlash(ms);
    DigitsHaveNoSlash(ys);
    assert '/' !in dx && dx[0] == ds[0];
    DatePartsOf(dx, ms, ys);
    DatePartsOf(ds, ms, ys);
    ParseIntReadsLeadingDigits(ds, [x]);
    ParseIntReadsLeadingDigits(ds, []);
    assert ds + [] == ds;
    assert ValidateDate(Some(dx + "/" + ms + "/" + ys)) == ValidateDateParts([dx, ms, ys]);
    assert ValidateDate(Some(ds + "/" + ms + "/" + ys)) == ValidateDateParts([ds, ms, ys]);
  }

  /** Two decimal digits, zero-padded. */
  function TwoDigits(n: nat): (s: string)
    requires n < 100
    ensures AllDigits(s) && |s| == 2 && DigitsValue(s) == n
  {
    var s := [DigitChar(n / 10), DigitChar(n % 10)];
    assert s[..1] == [DigitChar(n / 10)] && s[..1][..0] == [];
    assert DigitsValue(s[..1]) == n / 10;
    assert DigitsValue(s) == (n / 10) * 10 + n % 10;
    s
  }

  /** A date written `DD/MM/YYYY` (the year in as many digits as it takes). */
  function FormatDate(day: nat, month: nat, year: nat): string
    requires day < 100 && month < 100
  {
    TwoDigits(day) + "/" + TwoDigits(month) + "/" + NatToDigits(year)
  }

  lemma DigitsHaveNoSlash(ds: string)
    requires AllDigits(ds)
    ensures '/' !in ds
  {
  }

  lemma {:induction false} SplitFormattedDate(day: nat, month: nat, year: nat)
    requires day < 100 && month < 100
    ensures DateParts(FormatDate(day, month, year)) == [TwoDigits(day), TwoDigits(month), NatToDigits(year)]
  {
    var a, b, c := TwoDigits(day), TwoDigits(month), NatToDigits(year);
    var s := FormatDate(day, month, year);
    assert s == a + ['/'] + (b + ['/'] + c);
    assert !IsWhiteSpace(s[0]) && !IsWhiteSpace(s[|s| - 1]) by {
      assert s[0] == a[0];
      assert s[|s| - 1] == c[|c| - 1];
    }
    TrimOfTrimmed(s);
    DigitsHaveNoSlash(a);
    DigitsHaveNoSlash(b);
    DigitsHaveNoSlash(c);
    SplitAfterPiece(a, '/', b + ['/'] + c);
    SplitAfterPiece(b, '/', c);
    SplitNone(c, '/');
  }

  /**
   * Round trip: a date written `DD/MM/YYYY` is accepted, and read back as that date,
   * exactly when it is a calendar day between the years 1900 and 2100. So 29/02 passes
   * only in leap years, and 31/04, day 00 and month 13 are refused.
   */
  lemma ValidateFormattedDate(day: nat, month: nat, year: nat)
    requires day < 100 && month < 100
    ensures ValidateDate(Some(FormatDate(day, month, year))) ==
      if IsCalendarDay(Date(year, month, day)) && 1900 <= year <= 2100 then Some(Date(year, month, day)) else None
  {
    var a, b, c := TwoDigits(day), TwoDigits(month), NatToDigits(year);
    SplitFormattedDate(day, month, year);
    ParseIntOfDigits(a);
    ParseIntOfDigits(b);
    ParseIntOfDigits(c);
    NatToDigitsRoundTrip(year);
    ValidateDateOfParts(FormatDate(day, month, year), Date(year, month, day));
  }

  /** A text whose three parts read as the day, month and year of `d` is validated as `d` when `d` is in range. */
  lemma ValidateDateOfParts(text: string, d: Date)
    requires text != "" && |DateParts(text)| == 3
    requires ParseInt(DateParts(text)[0]) == Some(d.day)
    requires ParseInt(DateParts(text)[1]) == Some(d.month)
    requires ParseInt(DateParts(text)[2]) == Some(d.year)
    ensures ValidateDate(Some(text)) == if IsCalendarDay(d) && 1900 <= d.year <= 2100 then Some(d) else None
  {
    var r := ValidateDateNumbers(Some(d.day), Some(d.month), Some(d.year));
    assert ValidateDate(Some(text)) == r;
    ValidateDateNumbersSpec(Some(d.day), Some(d.month), Some(d.year), d);
    if r.Some? {
      ValidateDateNumbersSpec(Some(d.day), Some(d.month), Some(d.year), r.value);
    }
  }

  // ---------------------------------------------------------------------------
  // validateAmount
  // ---------------------------------------------------------------------------

  /** The text `parseFloat` is given: trimmed, with the first `,` turned into `.`. */
  function NormalizeAmount(text: string): string {
    ReplaceFirst(Trim(text), ',', '.')
  }

  /**
   * `validateAmount`: the number `parseFloat` reads from the normalized text, or `None`
   * when it reads `NaN`. An infinite reading is also `None` here, so that every accepted
   * amount is a finite number (the check as written lets it through: see
   * `InfinityPassesAsWritten`).
   */
  function ValidateAmount(amountStr: Cell): (r: Option<real>)
    ensures r.Some? ==> Truthy(amountStr) && ParseFloat(NormalizeAmount(amountStr.value)) == Finite(r.value)
    ensures Truthy(amountStr) && ParseFloat(NormalizeAmount(amountStr.value)).Finite? ==> r.Some?
  {
    if !Truthy(amountStr) then None
    else
      match ParseFloat(NormalizeAmount(amountStr.value))
      case Finite(v) => Some(v)
      case _ => None
  }

  /** The check as `validateAmount` writes it (`isNaN(amount)`): any reading but `NaN` passes. */
  predicate AmountPassesAsWritten(amountStr: Cell) {
    Truthy(amountStr) && !ParseFloat(NormalizeAmount(amountStr.value)).NaN?
  }

  /** A text with no `,` and no white space at either end is given to `parseFloat` as it is. */
  lemma NormalizeKeeps(text: string)
    requires |text| > 0 && !IsWhiteSpace(text[0]) && !IsWhiteSpace(text[|text| - 1]) && ',' !in text
    ensures NormalizeAmount(text) == text
  {
    TrimOfTrimmed(text);
    ReplaceFirstSpec(text, ',', '.', []);
  }

  /** `parseFloat` reads an optional `-` followed by `Infinity` as an infinity of that sign. */
  lemma ParseFloatOfInfinity(negative: bool, body: string)
    requires StartsWithInfinity(body)
    ensures ParseFloat((if negative then "-" else "") + body) == Infinite(negative)
  {
    var text := (if negative then "-" else "") + body;
    assert body[0] == InfinityText()[0] == 'I';
    assert text[0] == (if negative then '-' else 'I');
    assert TrimStart(text) == text;
    assert SignPrefix(text) == (negative, body);
  }

  /**
   * `isNaN` lets infinities through: a text such as "Infinity" or "-Infinity" passes the
   * check as written, with an infinite amount, where `ValidateAmount` refuses it.
   */
  lemma InfinityPassesAsWritten(negative: bool, body: string)
    requires StartsWithInfinity(body) && ',' !in body && !IsWhiteSpace(body[|body| - 1])
    ensures var text := (if negative then "-" else "") + body;
      && ParseFloat(NormalizeAmount(text)) == Infinite(negative)
      && AmountPassesAsWritten(Some(text))
      && ValidateAmount(Some(text)) == None
  {
    var text := (if negative then "-" else "") + body;
    assert body[0] == InfinityText()[0] == 'I';
    assert text[0] == (if negative then '-' else 'I');
    assert text[|text| - 1] == body[|body| - 1];
    NormalizeKeeps(text);
    ParseFloatOfInfinity(negative, body);
  }

  // ---------------------------------------------------------------------------
  // validateCategory (and the inline label check of the parser)
  // ---------------------------------------------------------------------------

  /** `validateCategory`: a string whose trimmed length is positive. */
  predicate ValidateCategory(category: Cell) {
    category.Some? && |Trim(category.value)| > 0
  }

  /** A category is accepted iff it is present and holds a character other than white space. */
  lemma ValidateCategorySpec(category: Cell)
    ensures ValidateCategory(category) <==>
      category.Some? && exists i :: 0 <= i < |category.value| && !IsWhiteSpace(category.value[i])
  {
    if category.Some? {
      TrimEmptyIffBlank(category.value);
    }
  }

  // ---------------------------------------------------------------------------
  // validateCSVStructure
  // ---------------------------------------------------------------------------

  const RequiredColumns: seq<string> := ["Date", "Category", "Label", "Amount"]

  const EmptyFileMessage: string := "CSV file is empty"

  function MissingColumnMessage(column: string): string {
    "Missing required column: " + column
  }

  /** One message per column of `columns` absent from `row`, in the order of `columns`. */
  function MissingColumnMessages(row: Row, columns: seq<string>): (messages: seq<string>)
    ensures |messages| <= |columns|
    ensures messages == [] <==> forall i :: 0 <= i < |columns| ==> columns[i] in row
  {
    if |columns| == 0 then []
    else
      var column := columns[|columns| - 1];
      MissingColumnMessages(row, columns[..|columns| - 1])
        + (if column !in row then [MissingColumnMessage(column)] else [])
  }

  /** Different columns give different messages. */
  lemma MissingColumnMessageInjective(a: string, b: string)
    ensures MissingColumnMessage(a) == MissingColumnMessage(b) <==> a == b
  {
    var prefix := "Missing required column: ";
    if MissingColumnMessage(a) == MissingColumnMessage(b) {
      assert a == MissingColumnMessage(a)[|prefix|..];
      assert b == MissingColumnMessage(b)[|prefix|..];
    }
  }

  /** The message about `column` is reported exactly when it is one of `columns` and absent from `row`. */
  lemma {:induction false} MissingColumnMessagesSpec(row: Row, columns: seq<string>, column: string)
    ensures MissingColumnMessage(column) in MissingColumnMessages(row, columns) <==> column in columns && column !in row
  {
    if |columns| > 0 {
      var init, last := columns[..|columns| - 1], columns[|columns| - 1];
      MissingColumnMessagesSpec(row, init, column);
      MissingColumnMessageInjective(column, last);
      assert columns == init + [last];
    }
  }

  /** What `validateCSVStructure` reports for the tokenized rows. */
  function StructureErrors(rows: seq<Row>): seq<string> {
    if |rows| == 0 then [EmptyFileMessage] else MissingColumnMessages(rows[0], RequiredColumns)
  }

  /**
   * `validateCSVStructure`: "CSV file is empty" alone for no rows; otherwise one message
   * per required column (Date, Category, Label, Amount, in that order) missing from the
   * first row's keys. No message at all iff there are rows and the first has all four.
   */
  method ValidateCSVStructure(rows: seq<Row>) returns (errors: seq<string>)
    ensures errors == StructureErrors(rows)
    ensures rows == [] ==> errors == [EmptyFileMessage]
    ensures errors == [] <==> rows != [] && forall c :: c in RequiredColumns ==> c in rows[0]
  {
    errors := [];
    if |rows| == 0 {
      errors := errors + [EmptyFileMessage];
      return;
    }
    var firstRow := rows[0];
    for k := 0 to |RequiredColumns|
      invariant errors == MissingColumnMessages(firstRow, RequiredColumns[..k])
    {
      var column := RequiredColumns[k];
      assert RequiredColumns[..k + 1][..k] == RequiredColumns[..k];
      if column !in firstRow {
        errors := errors + [MissingColumnMessage(column)];
      }
    }
    assert RequiredColumns[..|RequiredColumns|] == RequiredColumns;
  }
}
