/**
 * `parseCSVFile` (src/utils/csvParser.ts): fetch the file, tokenize it, check its
 * structure, then validate each data row in turn, keeping the valid ones as expenses
 * and one error for each invalid one, and summarize the expenses.
 *
 * Fetching and tokenizing are not modelled: the method is given what they produced.
 */
module CsvParser {
  import opened Wrappers
  import opened Calendar
  import opened JsText
  import opened ExpenseTypes
  import opened Validators
  import opened DataProcessing
  import opened RowOutcomes

  /** An error the tokenizer reported; `row` is absent when it names no row. */
  datatype TokenizerError = TokenizerError(row: Option<int>, message: string)

  /**
   * What the tokenizer makes of the file text (`;`-separated, header row, blank lines
   * skipped, header names trimmed): one row per data line, and its errors.
   */
  datatype Tokenized = Tokenized(data: seq<Row>, errors: seq<TokenizerError>)

  /**
   * The outcome of fetching the file: a rejected `fetch` (with the thrown value's
   * message when it is an `Error`), or a response, its status, and its tokenized body.
   */
  datatype Download =
    | FetchRejected(errorMessage: Option<string>)
    | Response(ok: bool, statusText: string, body: Tokenized)

  // ---------------------------------------------------------------------------
  // Errors
  // ---------------------------------------------------------------------------

  /** The error recorded when anything before tokenizing fails. */
  function FileError(message: string): ParseError {
    ParseError(0, "file", message)
  }

  function FetchFailedMessage(statusText: string): string {
    "Failed to fetch CSV file: " + statusText
  }

  /** The message of the caught value: its own for an `Error`, a fixed one otherwise. */
  function CaughtMessage(errorMessage: Option<string>): string {
    errorMessage.GetOr("Unknown error occurred")
  }

  /** A tokenizer error as recorded: `row: error.row || 0`, field `parse`. */
  function TokenizerParseError(e: TokenizerError): ParseError {
    ParseError(e.row.GetOr(0), "parse", e.message)
  }

  function TokenizerParseErrors(errors: seq<TokenizerError>): (r: seq<ParseError>)
    ensures |r| == |errors|
  {
    seq(|errors|, i requires 0 <= i < |errors| => TokenizerParseError(errors[i]))
  }

  function StructureParseErrors(messages: seq<string>): (r: seq<ParseError>)
    ensures |r| == |messages|
  {
    seq(|messages|, i requires 0 <= i < |messages| => ParseError(0, "structure", messages[i]))
  }

  // ---------------------------------------------------------------------------
  // One data row
  // ---------------------------------------------------------------------------

  /** How a cell reads in a message: `undefined` when the column is absent. */
  function CellText(cell: Cell): string {
    cell.GetOr("undefined")
  }

  /** The parser's own label check: `!row.Label || typeof row.Label !== 'string' || row.Label.trim().length === 0` fails. */
  predicate LabelGiven(cell: Cell) {
    Truthy(cell) && |Trim(cell.value)| > 0
  }

  /** The label check accepts exactly what `validateCategory` accepts. */
  lemma LabelGivenIsValidCategory(cell: Cell)
    ensures LabelGiven(cell) <==> ValidateCategory(cell)
  {
  }

  /** Whether the row's value for one of the four required columns passes that column's check. */
  predicate ColumnValid(row: Row, column: string) {
    if column == "Date" then ValidateDate(Field(row, "Date")).Some?
    else if column == "Category" then ValidateCategory(Field(row, "Category"))
    else if column == "Label" then LabelGiven(Field(row, "Label"))
    else if column == "Amount" then ValidateAmount(Field(row, "Amount")).Some?
    else true
  }

  /** All four checks pass. */
  predicate RowValid(row: Row) {
    ColumnValid(row, "Date") && ColumnValid(row, "Category") && ColumnValid(row, "Label") && ColumnValid(row, "Amount")
  }

  /** The message recorded when the check of `column` fails. */
  function RejectionMessage(row: Row, column: string): string {
    if column == "Date" then "Cannot parse date '" + CellText(Field(row, "Date")) + "'"
    else if column == "Category" then "Category is required"
    else if column == "Label" then "Label is required"
    else "Invalid amount '" + CellText(Field(row, "Amount")) + "'"
  }

  /**
   * `column` is the first of Date, Category, Label and Amount, in that order, whose check
   * fails: it fails, and every column before it passes.
   */
  predicate FirstFailure(row: Row, column: string) {
    && !ColumnValid(row, column)
    && (|| column == "Date"
        || (column == "Category" && ColumnValid(row, "Date"))
        || (column == "Label" && ColumnValid(row, "Date") && ColumnValid(row, "Category"))
        || (column == "Amount" && ColumnValid(row, "Date") && ColumnValid(row, "Category") && ColumnValid(row, "Label")))
  }

  /** A row that fails has exactly one first failing column, and it is one of the four. */
  lemma FirstFailureUnique(row: Row, c: string, d: string)
    ensures !RowValid(row) ==> exists c :: FirstFailure(row, c) && c in RequiredColumns
    ensures FirstFailure(row, c) && FirstFailure(row, d) ==> c == d
  {
    if !RowValid(row) {
      var k := if !ColumnValid(row, "Date") then 0
        else if !ColumnValid(row, "Category") then 1
        else if !ColumnValid(row, "Label") then 2
        else 3;
      assert FirstFailure(row, RequiredColumns[k]);
      assert RequiredColumns[k] in RequiredColumns;
    }
  }

  /**
   * The `forEach` callback on the data row at `index` (line `index + 2` of the file):
   * the checks of Date, Category, Label and Amount in that order; the first that fails
   * gives the row's error, and a row passing all four gives an expense with trimmed
   * category and label.
   */
  function CheckRow(row: Row, index: nat): (outcome: RowOutcome)
    ensures outcome.Accepted? <==> RowValid(row)
    ensures outcome.Rejected? ==>
      && outcome.error.row == index + 2
      && FirstFailure(row, outcome.error.field)
      && outcome.error.message == RejectionMessage(row, outcome.error.field)
    ensures outcome.Accepted? ==>
      var e := outcome.expense;
      && e.originalRow == index + 2
      && e.id == ExpenseId(e.date, index)
      && ValidateDate(Field(row, "Date")) == Some(e.date)
      && ValidateAmount(Field(row, "Amount")) == Some(e.amount)
      && Field(row, "Category").Some? && e.category == Trim(Field(row, "Category").value)
      && Field(row, "Label").Some? && e.description == Trim(Field(row, "Label").value)
  {
    var rowNumber := index + 2;
    var date := ValidateDate(Field(row, "Date"));
    if date.None? then
      Rejected(ParseError(rowNumber, "Date", RejectionMessage(row, "Date")))
    else if !ValidateCategory(Field(row, "Category")) then
      Rejected(ParseError(rowNumber, "Category", RejectionMessage(row, "Category")))
    else if !LabelGiven(Field(row, "Label")) then
      Rejected(ParseError(rowNumber, "Label", RejectionMessage(row, "Label")))
    else
      var amount := ValidateAmount(Field(row, "Amount"));
      if amount.None? then
          Rejected(ParseError(rowNumber, "Amount", RejectionMessage(row, "Amount")))
      else
        Accepted(Expense(
          ExpenseId(date.value, index),
          date.value,
          Trim(Field(row, "Category").value),
          Trim(Field(row, "Label").value),
          amount.value,
          rowNumber))
  }

  // ---------------------------------------------------------------------------
  // All data rows
  // ---------------------------------------------------------------------------

  /** What each data row yields, in row order. */
  function Outcomes(rows: seq<Row>): (outcomes: seq<RowOutcome>)
    ensures |outcomes| == |rows|
  {
    if |rows| == 0 then []
    else Outcomes(rows[..|rows| - 1]) + [CheckRow(rows[|rows| - 1], |rows| - 1)]
  }

  /** The `i`-th outcome is the `i`-th row's. */
  lemma {:induction false} OutcomeOfRow(rows: seq<Row>, i: int)
    requires 0 <= i < |rows|
    ensures Outcomes(rows)[i] == CheckRow(rows[i], i)
  {
    if i < |rows| - 1 {
      var init := rows[..|rows| - 1];
      OutcomeOfRow(init, i);
      assert init[i] == rows[i];
    }
  }

  /** The expenses of the valid rows, in row order. */
  function Records(rows: seq<Row>): seq<Expense> {
    AcceptedOf(Outcomes(rows))
  }

  /** The errors of the invalid rows, in row order. */
  function RowErrors(rows: seq<Row>): seq<ParseError> {
    RejectedOf(Outcomes(rows))
  }

  lemma OutcomesNumbered(rows: seq<Row>)
    ensures NumberedFromLine2(Outcomes(rows))
  {
    forall i | 0 <= i < |rows| ensures LineOf(Outcomes(rows)[i]) == i + 2 {
      OutcomeOfRow(rows, i);
    }
  }

  /** Every data row yields an expense or an error, never both and never neither. */
  lemma RowsAccountedFor(rows: seq<Row>)
    ensures |Records(rows)| + |RowErrors(rows)| == |rows|
  {
    OutcomesAccountedFor(Outcomes(rows));
  }

  /**
   * Row numbers: the expenses and the errors each come in strictly increasing line
   * order, all within lines 2 to `|rows| + 1`; line `i + 2` has an expense iff row `i`
   * passes all four checks, and an error iff it does not.
   */
  lemma RowNumbers(rows: seq<Row>)
    ensures forall k :: 0 <= k < |Records(rows)| ==> 2 <= Records(rows)[k].originalRow < |rows| + 2
    ensures forall k, l :: 0 <= k < l < |Records(rows)| ==> Records(rows)[k].originalRow < Records(rows)[l].originalRow
    ensures forall k :: 0 <= k < |RowErrors(rows)| ==> 2 <= RowErrors(rows)[k].row < |rows| + 2
    ensures forall k, l :: 0 <= k < l < |RowErrors(rows)| ==> RowErrors(rows)[k].row < RowErrors(rows)[l].row
    ensures forall i :: 0 <= i < |rows| ==>
      (RowValid(rows[i]) <==> exists k :: 0 <= k < |Records(rows)| && Records(rows)[k].originalRow == i + 2)
    ensures forall i :: 0 <= i < |rows| ==>
      (!RowValid(rows[i]) <==> exists k :: 0 <= k < |RowErrors(rows)| && RowErrors(rows)[k].row == i + 2)
  {
    var outcomes := Outcomes(rows);
    OutcomesNumbered(rows);
    AcceptedLinesAscend(outcomes);
    RejectedLinesAscend(outcomes);
    forall i | 0 <= i < |rows|
      ensures RowValid(rows[i]) <==> exists k :: 0 <= k < |Records(rows)| && Records(rows)[k].originalRow == i + 2
      ensures !RowValid(rows[i]) <==> exists k :: 0 <= k < |RowErrors(rows)| && RowErrors(rows)[k].row == i + 2
    {
      RowLine(rows, i);
    }
  }

  lemma RowLine(rows: seq<Row>, i: int)
    requires 0 <= i < |rows|
    ensures RowValid(rows[i]) <==> exists k :: 0 <= k < |Records(rows)| && Records(rows)[k].originalRow == i + 2
    ensures !RowValid(rows[i]) <==> exists k :: 0 <= k < |RowErrors(rows)| && RowErrors(rows)[k].row == i + 2
  {
    var outcome := Outcomes(rows)[i];
    assert outcome.Accepted? <==> RowValid(rows[i]) by {
      OutcomeOfRow(rows, i);
    }
    assert outcome.Accepted? <==> exists k :: 0 <= k < |Records(rows)| && Records(rows)[k].originalRow == i + 2 by {
      OutcomesNumbered(rows);
      AcceptedLine(Outcomes(rows), i);
      assert Records(rows) == AcceptedOf(Outcomes(rows));
    }
    assert outcome.Rejected? <==> exists k :: 0 <= k < |RowErrors(rows)| && RowErrors(rows)[k].row == i + 2 by {
      OutcomesNumbered(rows);
      RejectedLine(Outcomes(rows), i);
      assert RowErrors(rows) == RejectedOf(Outcomes(rows));
    }
  }

  /** An expense kept from a row is well formed. */
  lemma AcceptedWellFormed(row: Row, index: nat)
    requires CheckRow(row, index).Accepted?
    ensures var e := CheckRow(row, index).expense;
      && IsCalendarDay(e.date) && 1900 <= e.date.year <= 2100
      && e.category != "" && Trim(e.category) == e.category
      && e.description != "" && Trim(e.description) == e.description
      && e.id == ExpenseId(e.date, e.originalRow - 2)
  {
    var e := CheckRow(row, index).expense;
    assert ColumnValid(row, "Category") && ColumnValid(row, "Label");
    TrimIdempotent(Field(row, "Category").value);
    TrimIdempotent(Field(row, "Label").value);
  }

  /**
   * Every expense is well formed: a calendar day in the years 1900 to 2100, a category
   * and a label that are non-empty and already trimmed, and the identifier made of the
   * date and the data row index.
   */
  lemma RecordsWellFormed(rows: seq<Row>)
    ensures forall k :: 0 <= k < |Records(rows)| ==>
      var e := Records(rows)[k];
      && IsCalendarDay(e.date) && 1900 <= e.date.year <= 2100
      && e.category != "" && Trim(e.category) == e.category
      && e.description != "" && Trim(e.description) == e.description
      && e.id == ExpenseId(e.date, e.originalRow - 2)
  {
    var outcomes := Outcomes(rows);
    forall k | 0 <= k < |Records(rows)|
      ensures var e := Records(rows)[k];
        && IsCalendarDay(e.date) && 1900 <= e.date.year <= 2100
        && e.category != "" && Trim(e.category) == e.category
        && e.description != "" && Trim(e.description) == e.description
        && e.id == ExpenseId(e.date, e.originalRow - 2)
    {
      AcceptedFromSomeRow(outcomes, k);
      var i :| 0 <= i < |outcomes| && outcomes[i] == Accepted(AcceptedOf(outcomes)[k]);
      OutcomeOfRow(rows, i);
      AcceptedWellFormed(rows[i], i);
    }
  }

  /** No two expenses share an identifier. */
  lemma UniqueIds(rows: seq<Row>)
    ensures forall k, l :: 0 <= k < l < |Records(rows)| ==> Records(rows)[k].id != Records(rows)[l].id
  {
    RowNumbers(rows);
    RecordsWellFormed(rows);
  }

  // ---------------------------------------------------------------------------
  // parseCSVFile
  // ---------------------------------------------------------------------------

  /**
   * The `forEach` over the data rows: each row's outcome, appended to the expenses or
   * to the errors.
   */
  method CheckRows(rows: seq<Row>) returns (expenses: seq<Expense>, errors: seq<ParseError>)
    ensures expenses == Records(rows)
    ensures errors == RowErrors(rows)
  {
    expenses, errors := [], [];
    for index := 0 to |rows|
      invariant expenses == Records(rows[..index])
      invariant errors == RowErrors(rows[..index])
    {
      var outcome := CheckRow(rows[index], index);
      assert rows[..index + 1][..index] == rows[..index];
      assert Outcomes(rows[..index + 1]) == Outcomes(rows[..index]) + [outcome];
      OutcomesAppend(Outcomes(rows[..index]), outcome);
      if outcome.Accepted? {
        expenses := expenses + [outcome.expense];
      } else {
        errors := errors + [outcome.error];
      }
    }
    assert rows[..|rows|] == rows;
  }

  /**
   * Everything after the file has been fetched and tokenized: the tokenizer's errors are
   * recorded first; a failed structure check adds its messages and ends with no data and
   * no summary; otherwise every data row is checked, and the summary is computed when at
   * least one expense was kept.
   */
  method ProcessTokenized(tokenized: Tokenized) returns (result: ParseResult)
    ensures StructureErrors(tokenized.data) != [] ==>
      result == ParseResult(
        [],
        TokenizerParseErrors(tokenized.errors) + StructureParseErrors(StructureErrors(tokenized.data)),
        None)
    ensures StructureErrors(tokenized.data) == [] ==>
      && result.data == Records(tokenized.data)
      && result.errors == TokenizerParseErrors(tokenized.errors) + RowErrors(tokenized.data)
      && (result.summary.Some? <==> |result.data| > 0)
      && (result.summary.Some? ==> result.summary.value == Summarize(result.data))
  {
    var errors: seq<ParseError> := [];

    for i := 0 to |tokenized.errors|
      invariant errors == TokenizerParseErrors(tokenized.errors[..i])
    {
      errors := errors + [TokenizerParseError(tokenized.errors[i])];
    }
    assert tokenized.errors[..|tokenized.errors|] == tokenized.errors;
    ghost var afterTokenizer := errors;

    var structureErrors := ValidateCSVStructure(tokenized.data);
    if |structureErrors| > 0 {
      for i := 0 to |structureErrors|
        invariant errors == afterTokenizer + StructureParseErrors(structureErrors[..i])
      {
        errors := errors + [ParseError(0, "structure", structureErrors[i])];
      }
      assert structureErrors[..|structureErrors|] == structureErrors;
      return ParseResult([], errors, None);
    }

    var expenses, rowErrors := CheckRows(tokenized.data);
    errors := errors + rowErrors;

    var summary: Option<DataSummary> := None;
    if |expenses| > 0 {
      var s := CalculateSummary(expenses);
      summary := Some(s);
    }
    return ParseResult(expenses, errors, summary);
  }

  /**
   * `parseCSVFile`: a rejected fetch or a response that is not ok gives a single file
   * error and nothing else; an ok response gives what `ProcessTokenized` gives for its
   * tokenized body.
   */
  method ParseCSVFile(download: Download) returns (result: ParseResult)
    ensures download.FetchRejected? ==>
      result == ParseResult([], [FileError(CaughtMessage(download.errorMessage))], None)
    ensures download.Response? && !download.ok ==>
      result == ParseResult([], [FileError(FetchFailedMessage(download.statusText))], None)
    ensures download.Response? && download.ok && StructureErrors(download.body.data) != [] ==>
      result == ParseResult(
        [],
        TokenizerParseErrors(download.body.errors) + StructureParseErrors(StructureErrors(download.body.data)),
        None)
    ensures download.Response? && download.ok && StructureErrors(download.body.data) == [] ==>
      && result.data == Records(download.body.data)
      && result.errors == TokenizerParseErrors(download.body.errors) + RowErrors(download.body.data)
      && (result.summary.Some? <==> |result.data| > 0)
      && (result.summary.Some? ==> result.summary.value == Summarize(result.data))
  {
    match download
    case FetchRejected(errorMessage) =>
      return ParseResult([], [FileError(CaughtMessage(errorMessage))], None);
    case Response(ok, statusText, body) =>
      if !ok {
        return ParseResult([], [FileError(FetchFailedMessage(statusText))], None);
      }
      result := ProcessTokenized(body);
  }
}
