/** The records of the expense pipeline: validated expenses, errors, the summary and the parse result. */
module ExpenseTypes {
  import opened Wrappers
  import opened Calendar

  /** The record identifier `<timestamp of the date>-<data row index>`, kept as the pair it is made of. */
  datatype ExpenseId = ExpenseId(date: Date, index: int)

  /**
   * A validated transaction; `description` is the `label` column (`label` is a Dafny
   * keyword) and `originalRow` is the 1-based line in the file (the header is line 1).
   */
  datatype Expense = Expense(
    id: ExpenseId,
    date: Date,
    category: string,
    description: string,
    amount: real,
    originalRow: int)

  /** `row` is 0 for file-level and structural errors. */
  datatype ParseError = ParseError(row: int, field: string, message: string)

  datatype DateRange = DateRange(start: Date, end: Date)

  datatype DataSummary = DataSummary(
    totalRecords: nat,
    dateRange: Option<DateRange>,
    categories: seq<string>,
    totalAmount: real,
    positiveAmount: real,
    negativeAmount: real,
    categoryCounts: map<string, nat>)

  datatype ParseResult = ParseResult(data: seq<Expense>, errors: seq<ParseError>, summary: Option<DataSummary>)
}
