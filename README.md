# SpendingsWeb expense pipeline in Dafny

SpendingsWeb is a React dashboard for a bank-account export. A `;`-separated CSV file has
the columns `Date` (`DD/MM/YYYY`), `Category`, `Label` and `Amount` (a decimal comma or
point, negative for spending). `parseCSVFile` fetches and tokenizes the file. It checks that
the four columns exist and validates every data row: the date, then the category, then the
label, then the amount. A valid row becomes an `Expense` with a trimmed category and label.
An invalid row becomes one `ParseError` naming the line and the first field that failed.
The expenses are summarized by `calculateSummary`: record count, date range, sorted distinct
categories, total, positive and negative sums, and count per category. The chart helpers
turn the expenses into:

- a daily time series;
- a monthly series, sorted chronologically;
- category bars, sorted by amount;
- an income-versus-expenses pair.

Every value a chart helper returns is rounded to cents (`parseFloat(x.toFixed(2))`). The sums in
the summary are not rounded.

The model has one module per source file, plus the JavaScript built-ins that the code relies
on:

| module | models |
|---|---|
| `Validators` (`validators.dfy`) | `src/utils/validators.ts` |
| `CsvParser`, `RowOutcomes` | `src/utils/csvParser.ts` |
| `DataProcessing`, `Ledger` | `src/utils/dataProcessing.ts`, sums and groupings shared with the charts |
| `ChartDataProcessing`, `ChartProperties`, `ChartLabels` | `src/utils/chartDataProcessing.ts`: the passes, their properties, the keys and labels |
| `ExpenseTypes` | `src/types/expense.types.ts` |
| `JsText` | `trim`, `split`, `replace`, `parseInt(s, 10)`, `parseFloat`, the default string order of `sort` |
| `Calendar` | `Date` as a calendar day, `new Date(y, m - 1, d)` with day roll-over, chronological order |
| `Ordering`, `StableSort` | the sorts used: distinct keys in a strict total order, and the stable comparator sort by amount |
| `FixedPoint` | `parseFloat(x.toFixed(2))` on exact numbers |
| `AmountRoundTrip` | amounts written with two decimals are read back exactly |

The loops of the source are methods with loop invariants:

- the row loop of `parseCSVFile`;
- the column loop of `validateCSVStructure`;
- the `categoryCounts` loop;
- the four chart passes, which accumulate into local maps that are reassigned.

Each loop method is proved equal to a specification function of its input. The promised
properties are proved about that function. In the model, the loops of `parseCSVFile` live in
`CsvParser.ProcessTokenized`, and `CsvParser.ParseCSVFile` only branches on the outcome of
the fetch. For each outcome, its contract states its whole result (data, errors and summary)
in terms of those functions.

Where the documented behaviour and the code differ, the model follows the code, with one
exception:

- `parseInt` reads a date part up to its first non-digit. So `1x/02/2024` is accepted as the
  first of February (`Validators.ValidateDateIgnoresTrailing`). Date parts are not required
  to be purely numeric.
- Rows that the tokenizer reported an error on are still validated. The expenses plus the
  row errors account for every data row (`CsvParser.RowsAccountedFor`), and the tokenizer
  errors come on top of them. So expenses plus row errors plus tokenizer-error rows is not
  the number of rows in general.

The exception is `validateAmount`. It rejects only `NaN`, so the text `Infinity` passes as an
infinite amount. `Validators.InfinityPassesAsWritten` models the check as written.
`Validators.ValidateAmount` also refuses infinite readings, so every amount in the model is a
finite number. See the second finding below.

## Model

| member | source | states |
|---|---|---|
| Validators.ValidateDate | src/utils/validators.ts:1-27 | an accepted date is always a real calendar day in the years 1900 to 2100 |
| Validators.ValidateDateNumbersSpec | src/utils/validators.ts:11-26 | the numbers are accepted as `d` exactly when they are the day, month and year of a calendar day `d` in 1900..2100; `new Date` rolling over a day such as 31/04 is caught by the round-trip check |
| Validators.ValidateDateSpec | src/utils/validators.ts:1-27 | a date text is accepted as `d` iff it is non-empty, its trimmed form has three `/` parts, `parseInt` reads them as `d`'s day, month and year, and `d` is a calendar day in 1900..2100 |
| Validators.ValidateDateOfParts | src/utils/validators.ts:4-26 | a text whose three parts read as `d` is validated to `d` when `d` is in range, and refused otherwise |
| Validators.ValidateFormattedDate | src/utils/validators.ts:1-27 | round trip: `DD/MM/YYYY` written from day, month and year is accepted and read back as that date exactly when it is a calendar day in 1900..2100 (29/02 only in leap years) |
| Validators.SplitFormattedDate | src/utils/validators.ts:4 | a written date trims to itself and splits at `/` into its day, month and year digits |
| Validators.DatePartsOf | src/utils/validators.ts:4 | three `/`-free pieces joined by `/` split back into those pieces |
| Validators.ValidateDateIgnoresTrailing | src/utils/validators.ts:7-9 | a day followed by a non-digit other than `/` is validated exactly as the bare day |
| Validators.ValidateAmount | src/utils/validators.ts:29-38 | an amount is accepted iff the text is non-empty and `parseFloat` of its trimmed form with the first `,` made `.` reads a finite number, and that number is the amount |
| Validators.InfinityPassesAsWritten | src/utils/validators.ts:33-35 | the `isNaN` check as written lets `Infinity` and `-Infinity` through as infinite amounts |
| Validators.NormalizeKeeps | src/utils/validators.ts:32 | text with no comma and no white space at its ends reaches `parseFloat` unchanged |
| Validators.ParseFloatOfInfinity | src/utils/validators.ts:33 | `parseFloat` reads an optional `-` and `Infinity` as an infinity of that sign |
| Validators.ValidateCategorySpec | src/utils/validators.ts:40-42 | a category is valid iff it is present and has a character that is not white space |
| Validators.MissingColumnMessages | src/utils/validators.ts:52-59 | no message at all iff every required column is a key of the first row; never more messages than columns |
| Validators.MissingColumnMessagesSpec | src/utils/validators.ts:52-59 | the message about a column is reported iff it is a required column that the first row lacks |
| Validators.MissingColumnMessageInjective | src/utils/validators.ts:57 | different columns give different messages |
| Validators.ValidateCSVStructure | src/utils/validators.ts:44-62 | "CSV file is empty" alone for no rows; otherwise one message per missing column in Date, Category, Label, Amount order; no errors iff there are rows and the first has all four columns |
| AmountRoundTrip.ValidateFormattedAmount | src/utils/validators.ts:29-38 | round trip: an amount of whole cents, written with a `-` when negative, units and two decimals after a comma or a point, is accepted and read back as exactly that amount |
| AmountRoundTrip.ValidateWrittenAmount | src/utils/validators.ts:29-38 | any text of the form optional `-`, digits, `,` or `.`, any number of digits (`10,5`, `-1234.56`) is accepted as the value of that decimal literal, negated after `-` |
| AmountRoundTrip.ValidateWholeAmount | src/utils/validators.ts:29-38 | any text of the form optional `-` and digits (`42`, `-7`) is accepted as that whole number, negated after `-` |
| AmountRoundTrip.WholeParse | src/utils/validators.ts:32-33 | `parseFloat` of such a normalized whole amount is the signed value of its digits |
| AmountRoundTrip.FormattedNormalize | src/utils/validators.ts:32 | trimming and replacing the first `,` turn a written amount into `-`, digits, `.`, digits |
| AmountRoundTrip.FormattedParse | src/utils/validators.ts:32-33 | `parseFloat` of the normalized text is the signed value of the literal |
| AmountRoundTrip.CentsValueHundredths | src/utils/validators.ts:33 | the literal written for `n` cents is worth `n` hundredths |
| JsText.TrimSpec | src/utils/validators.ts:4 | `trim` returns the piece of the text between white-space runs at both ends, and the piece neither starts nor ends with white space |
| JsText.TrimEmptyIffBlank | src/utils/validators.ts:41 | a text trims to nothing iff it is all white space |
| JsText.TrimIdempotent | src/utils/csvParser.ts:95-96 | trimming a trimmed text changes nothing |
| JsText.SplitSpec | src/utils/validators.ts:4 | `split` gives one more piece than there are separators, no piece holds the separator, and joining the pieces with it gives back the text |
| JsText.ReplaceFirstSpec | src/utils/validators.ts:32 | `replace` changes only the first occurrence of the character |
| JsText.ParseInt | src/utils/validators.ts:7-9 | `parseInt` is `NaN` iff no digit follows the optional white space and sign |
| JsText.ParseIntOfDigits | src/utils/validators.ts:7-9 | `parseInt` reads a run of digits as its decimal value, leading zeros included |
| JsText.ParseIntReadsLeadingDigits | src/utils/validators.ts:7-9 | `parseInt` reads the leading digits and ignores whatever non-digit text follows |
| JsText.ParseFloat | src/utils/validators.ts:33 | `parseFloat` is `NaN` iff the text after white space and sign starts with neither `Infinity` nor a decimal literal |
| JsText.NatToDigitsRoundTrip | src/utils/validators.ts:9 | writing a year in decimal and reading it back gives the year |
| JsText.StringOrder | src/utils/dataProcessing.ts:57 | the default order of `sort` is a strict total order on strings |
| Calendar.NewDate | src/utils/validators.ts:16 | `new Date(y, m - 1, d)` is a calendar day, and is `d/m/y` itself when `d` fits in the month |
| Calendar.NewDateRoundTrip | src/utils/validators.ts:16-24 | the built date gives back the same day, month and year iff they already name a calendar day |
| Calendar.DaysInMonth | src/utils/validators.ts:16 | months have 28 to 31 days, 29 only for February of a leap year, 31 for the long months |
| Calendar.DateOrder | src/utils/dataProcessing.ts:45-47 | comparing `getTime()` values is a strict total order on days |
| Calendar.MonthOrder | src/utils/chartDataProcessing.ts:97-98 | comparing the times of first days of months is a strict total order on months |
| CsvParser.ParseCSVFile | src/utils/csvParser.ts:6-122 | a rejected fetch or a response that is not ok gives one `file` error and nothing else; otherwise a structure failure gives no data, the tokenizer errors followed by one `structure` error per missing column, and no summary; a good structure gives the records, the tokenizer errors followed by the row errors, and the summary of the records exactly when there is at least one |
| CsvParser.ProcessTokenized | src/utils/csvParser.ts:25-108 | tokenizer errors first; structure errors end the parse with no data and no summary; otherwise the valid rows' expenses, one error per invalid row, and a summary of the expenses iff there is at least one |
| CsvParser.CheckRows | src/utils/csvParser.ts:51-100 | the row loop yields exactly the expenses of the valid rows and the errors of the invalid rows, in row order |
| CsvParser.CheckRow | src/utils/csvParser.ts:51-99 | a row yields an expense iff all four checks pass; an error names line `index + 2`, the first failing field and its message; an expense has the validated date and amount, the trimmed category and label, and line `index + 2` |
| CsvParser.FirstFailureUnique | src/utils/csvParser.ts:54-90 | a failing row has exactly one first failing column, one of the four |
| CsvParser.LabelGivenIsValidCategory | src/utils/csvParser.ts:73-80 | the inline label check accepts exactly what `validateCategory` accepts |
| CsvParser.OutcomeOfRow | src/utils/csvParser.ts:51-52 | the `i`-th outcome is the check of the `i`-th row at index `i` |
| CsvParser.OutcomesNumbered | src/utils/csvParser.ts:52 | the outcome of row `i` reports line `i + 2` |
| CsvParser.RowsAccountedFor | src/utils/csvParser.ts:51-100 | every data row gives an expense or an error, never both and never neither |
| CsvParser.RowNumbers | src/utils/csvParser.ts:52 | expenses and errors each come in strictly increasing line order within lines 2 to rows + 1; line `i + 2` has an expense iff row `i` is valid and an error iff it is not |
| CsvParser.RowLine | src/utils/csvParser.ts:52 | the same for a single row |
| CsvParser.AcceptedWellFormed | src/utils/csvParser.ts:92-99 | a kept expense has a calendar-day date in 1900..2100, a non-empty trimmed category and label, and the id of its date and row index |
| CsvParser.RecordsWellFormed | src/utils/csvParser.ts:92-99 | every expense of the parse is well formed in that sense |
| CsvParser.UniqueIds | src/utils/csvParser.ts:93 | no two expenses share an id |
| RowOutcomes.OutcomesAppend | src/utils/csvParser.ts:56-99 | each row pushes its expense or its error onto the matching list |
| RowOutcomes.OutcomesAccountedFor | src/utils/csvParser.ts:51-100 | the expenses and the errors together are as many as the outcomes |
| RowOutcomes.AcceptedLinesAscend | src/utils/csvParser.ts:52 | the expenses' lines strictly increase and lie within the file |
| RowOutcomes.RejectedLinesAscend | src/utils/csvParser.ts:52 | the errors' lines strictly increase and lie within the file |
| RowOutcomes.AcceptedLine | src/utils/csvParser.ts:52 | line `i + 2` has an expense iff outcome `i` is one |
| RowOutcomes.RejectedLine | src/utils/csvParser.ts:52 | line `i + 2` has an error iff outcome `i` is one |
| RowOutcomes.AcceptedFromSomeRow | src/utils/csvParser.ts:92-99 | every expense is the outcome of some row |
| DataProcessing.CalculateSummary | src/utils/dataProcessing.ts:3-40 | the summary counts the records and holds their date range, sorted categories, total, positive and negative sums and per-category counts |
| DataProcessing.SummaryOfNothing | src/utils/dataProcessing.ts:4-14 | no records: zero count, no range, no categories, zero sums, no counts |
| DataProcessing.SignSplit | src/utils/dataProcessing.ts:18-24 | the positive sum is the income and is never negative; the negative sum is minus the expenses and is never positive; together they make the total |
| DataProcessing.GetDateRange | src/utils/dataProcessing.ts:42-53 | none iff no records; otherwise start is no later than end, both are dates of records, and every record's date lies between them |
| DataProcessing.EarliestDate | src/utils/dataProcessing.ts:46 | the minimum: a date of some record, no later than any record's |
| DataProcessing.LatestDate | src/utils/dataProcessing.ts:47 | the maximum: a date of some record, no earlier than any record's |
| DataProcessing.GetUniqueCategories | src/utils/dataProcessing.ts:55-58 | exactly the categories that occur, each once, in ascending string order |
| DataProcessing.KeysAreCategories | src/utils/dataProcessing.ts:56 | the set of categories holds exactly the categories of the records |
| DataProcessing.CountCategories | src/utils/dataProcessing.ts:26-29 | the loop builds the per-category counts |
| DataProcessing.CategoryCountsAppend | src/utils/dataProcessing.ts:28 | one record adds one to its category's count, starting from 0 |
| DataProcessing.CategoryCountsSpec | src/utils/dataProcessing.ts:26-29 | a key for exactly the categories that occur, each counting its records (at least one), the counts adding up to the number of records |
| Ledger.TotalAppend | src/utils/dataProcessing.ts:60-62 | `getTotalAmount`'s reduce: one more record adds its amount to the total |
| Ledger.TotalSelect | src/utils/dataProcessing.ts:19-24 | filtering then summing is summing the kept contributions over all records |
| Ledger.KeysSpec | src/utils/chartDataProcessing.ts:39 | the map's keys list every record's key once, each with at least one record |
| Ledger.WhereSpec | src/utils/chartDataProcessing.ts:28 | a group holds only records of the input with that key |
| Ledger.GroupSum | src/utils/chartDataProcessing.ts:26-37 | summing group by group over keys covering the records gives the sum over all records |
| Ledger.GroupCount | src/utils/chartDataProcessing.ts:58-63 | counting group by group counts every record once |
| ChartDataProcessing.PrepareTimeSeriesData | src/utils/chartDataProcessing.ts:23-53 | the pass and the emit give the time series of the records |
| ChartDataProcessing.PrepareCategoryData | src/utils/chartDataProcessing.ts:55-72 | the pass, the emit and the sort give the category bars of the records |
| ChartDataProcessing.PrepareMonthlyData | src/utils/chartDataProcessing.ts:74-110 | the pass, the comparator sort and the emit give the monthly series of the records |
| ChartDataProcessing.PrepareIncomeVsExpenses | src/utils/chartDataProcessing.ts:112-131 | the pass gives the rounded income and expenses of the records |
| ChartDataProcessing.FlowOfAppend | src/utils/chartDataProcessing.ts:30-34 | a positive amount adds to income, any other adds its absolute value to expenses |
| ChartDataProcessing.FlowsAppend | src/utils/chartDataProcessing.ts:28-36 | one step of the pass is `get` or zero, add, `set` on the map of flows |
| ChartDataProcessing.FlowsStep | src/utils/chartDataProcessing.ts:26-37 | the same step on a prefix, and a new key is appended to the insertion order |
| ChartDataProcessing.TallyOfAppend | src/utils/chartDataProcessing.ts:60-61 | a record changes only its own category's tally: absolute amount and one more |
| ChartDataProcessing.TalliesAppend | src/utils/chartDataProcessing.ts:59-62 | one step of the category pass on the map of tallies |
| ChartDataProcessing.TalliesStep | src/utils/chartDataProcessing.ts:58-63 | the same step on a prefix, with the insertion order of categories |
| ChartDataProcessing.DaysAreKeyed | src/utils/chartDataProcessing.ts:41-42 | every sorted day has an entry in the map (the `!` never fails) |
| ChartDataProcessing.MonthsAreKeyed | src/utils/chartDataProcessing.ts:101-102 | every sorted month has an entry in the map |
| ChartDataProcessing.SortedKeys | src/utils/chartDataProcessing.ts:39 | sorting the keys keeps exactly the keys |
| ChartDataProcessing.KeysOccur | src/utils/chartDataProcessing.ts:39 | every key of the map is the key of some record |
| ChartProperties.TimeSeriesSpec | src/utils/chartDataProcessing.ts:23-53 | one point per day on which a record falls, in chronological order, labelled with that day, holding the rounded income and expenses of that day's records and their rounded difference |
| ChartProperties.DayPoint | src/utils/chartDataProcessing.ts:41-52 | the point of the `i`-th day is that day's group, labelled and rounded |
| ChartProperties.DaysSpec | src/utils/chartDataProcessing.ts:39 | the days are strictly chronological, each once, exactly the days of the records |
| ChartProperties.SortedGroups | src/utils/chartDataProcessing.ts:39 | sorted keys of a grouping are strictly increasing, each once, exactly the keys of the records |
| ChartProperties.PointOfGroup | src/utils/chartDataProcessing.ts:48-50 | a point holds its group's rounded sums, income and expenses never negative |
| ChartProperties.TimeSeriesKeysInStringOrder | src/utils/chartDataProcessing.ts:27-39 | sorting the ISO keys as strings gives the ISO keys of the days in chronological order |
| ChartProperties.IsoKeysSorted | src/utils/chartDataProcessing.ts:39 | chronological days have ISO keys in string order |
| ChartProperties.IsoKeysNoDup | src/utils/chartDataProcessing.ts:27 | distinct days have distinct ISO keys |
| ChartProperties.MonthlySeriesSpec | src/utils/chartDataProcessing.ts:74-110 | one point per month in which a record falls, in chronological order, labelled `MM/YYYY`, holding the month's rounded income, expenses and net |
| ChartProperties.MonthPoint | src/utils/chartDataProcessing.ts:101-109 | the point of the `i`-th month is that month's group, labelled and rounded |
| ChartProperties.MonthsSpec | src/utils/chartDataProcessing.ts:94-99 | the months are strictly chronological, each once, exactly the months of the records |
| ChartProperties.MonthlyKeysInComparatorOrder | src/utils/chartDataProcessing.ts:94-99 | consecutive month keys are in the comparator's order and distinct, and the comparator reads each key back as its month |
| ChartProperties.CategorySpec | src/utils/chartDataProcessing.ts:55-72 | bars sorted by amount, largest first, equal amounts in first-encounter order, a permutation of the unsorted bars; one bar per category that occurs; a bar's count is its `categoryCounts` entry and its amount the rounded sum of absolute amounts; counts add up to the number of records |
| ChartProperties.CategoryBarsSpec | src/utils/chartDataProcessing.ts:65-70 | before sorting, one bar per category in first-encounter order, with its count and rounded absolute sum; counts add up to the number of records |
| ChartProperties.BarAt | src/utils/chartDataProcessing.ts:65-70 | the bar of the `i`-th category before sorting |
| ChartProperties.SortedBar | src/utils/chartDataProcessing.ts:65-71 | a sorted bar counts its category's records and holds their rounded absolute sum |
| ChartProperties.BarOfCategory | src/utils/chartDataProcessing.ts:58-63 | there is a bar for a category iff some record has it |
| ChartProperties.BarsDistinct | src/utils/chartDataProcessing.ts:65-71 | no two bars have the same category |
| ChartProperties.BarOrigin | src/utils/chartDataProcessing.ts:71 | every sorted bar is one of the unsorted bars |
| ChartProperties.EntriesCount | src/utils/chartDataProcessing.ts:69 | the bars' counts add up to the records of their categories |
| ChartProperties.OverallSpec | src/utils/chartDataProcessing.ts:112-131 | the pair is the summary's positive sum and negated negative sum, rounded, neither negative; with whole-cent amounts income minus expenses is the total amount |
| ChartProperties.ExactPoint | src/utils/chartDataProcessing.ts:48-50 | with whole-cent amounts rounding changes nothing and net is income minus expenses |
| ChartProperties.TimeSeriesAddsUp | src/utils/chartDataProcessing.ts:23-53 | with whole-cent amounts the daily incomes sum to the overall income, the daily expenses to the overall expenses |
| ChartProperties.MonthlySeriesAddsUp | src/utils/chartDataProcessing.ts:74-110 | the same for the monthly series |
| ChartProperties.ChartsOfNothing | src/utils/chartDataProcessing.ts:23-131 | no records: every series is empty and the pair is zero |
| ChartLabels.IsoDateOrder | src/utils/chartDataProcessing.ts:27-39 | one ISO key sorts before another iff its day is earlier |
| ChartLabels.IsoDateInjective | src/utils/chartDataProcessing.ts:27 | different days have different ISO keys, so grouping by key is grouping by day |
| ChartLabels.FixedWidthOrder | src/utils/chartDataProcessing.ts:39 | zero-padded numbers of one width compare as strings as they compare as numbers |
| ChartLabels.DayLabelReadsBack | src/utils/chartDataProcessing.ts:44-47 | a day label splits at `/` into two parts that read back as the day and the month |
| ChartLabels.DayMonthLabelInjective | src/utils/chartDataProcessing.ts:44-47 | equal day labels mean the same day and month |
| ChartLabels.ReadMonthLabel | src/utils/chartDataProcessing.ts:95-97 | the comparator reads a month key back as its month |
| ChartLabels.MonthComparator | src/utils/chartDataProcessing.ts:94-99 | the comparator orders month keys as their months, and different months have different keys |
| ChartLabels.MonthKeysAreNotInStringOrder | src/utils/chartDataProcessing.ts:94-99 | an illustration only, on one pair of months (the general claim is `MonthComparator`): the plain string order would put `01/2024` before `12/2023` |
| ChartLabels.PreviousDay | src/utils/chartDataProcessing.ts:44-47 | the day before a calendar day is the calendar day just before it |
| ChartLabels.DayLabelAsWrittenShifts | src/utils/chartDataProcessing.ts:27-47 | as written, the label is right in UTC and names the previous day in every other time zone |
| ChartLabels.DayLabelInParis | src/utils/chartDataProcessing.ts:44-47 | an illustration only, on one day (the general claim is `DayLabelAsWrittenShifts`): in Paris the expenses of 15/01/2024 are labelled `14/01` |
| Ordering.SortSpec | src/utils/dataProcessing.ts:57 | sorting distinct keys gives them strictly increasing, each once |
| Ordering.SortedUnique | src/utils/chartDataProcessing.ts:94-99 | two strictly sorted arrangements of the same elements are equal, so any sort by the comparator gives the model's order |
| StableSort.SortDescSorted | src/utils/chartDataProcessing.ts:71 | the bars come out with amounts never increasing |
| StableSort.SortDescStable | src/utils/chartDataProcessing.ts:71 | bars of equal amount keep their order |
| StableSort.SortDescSum | src/utils/chartDataProcessing.ts:71 | sorting does not change the sum of the counts |
| StableSort.SortDescNoDup | src/utils/chartDataProcessing.ts:71 | sorting distinct bars gives distinct bars |
| StableSort.SortDesc | src/utils/chartDataProcessing.ts:71 | the sorted bars are a permutation of the bars |
| FixedPoint.ToFixed2 | src/utils/chartDataProcessing.ts:48-50 | the rounded value is within half a cent, a whole number of cents, non-negative for non-negative input, and unchanged for whole cents |
| FixedPoint.RoundCents | src/utils/chartDataProcessing.ts:48 | rounding a non-negative number to the nearest cent, half up |

## Left out

- Fetching and reading the file, and the `papaparse` tokenizer: `CsvParser.ParseCSVFile` is given the outcome of the fetch and the tokenized rows and errors. The tokenizer's options (`;`, header row, blank lines skipped, header names trimmed) are not modelled.
- Floating point: amounts are exact reals. Sums in the source accumulate binary rounding errors, and `toFixed` rounds the binary value. The model rounds the exact value to the nearest cent, a half away from zero.
- Validators.ValidateAmount: an amount is a real, so an infinite `parseFloat` reading is refused instead of being kept as the source does (see Findings).
- Time zones: a `Date` is a calendar day. `getTime()` is modelled by chronological order. `toLocaleDateString` of a local-midnight date is its own day, month and year. The expense id `${date.getTime()}-${index}` is the pair of the date and the index, which is one-to-one like the timestamp in a fixed zone.
- The UTC `toISOString` key of the daily map is modelled by the day itself. `ChartLabels.IsoDateInjective` and `ChartLabels.IsoDateOrder` show that grouping and sorting by the key is grouping and sorting by day. How the label is written is covered in Findings.
- ChartLabels.MonthComparator: `new Date(y, m)` maps years 0 to 99 to 1900 to 1999, which the model does not. Records only have years 1900 to 2100.
- ChartDataProcessing.PrepareTimeSeriesData and ChartDataProcessing.PrepareMonthlyData require years 0 to 9999, where the `YYYY-MM-DD` key has that shape. Parsed records have years 1900 to 2100.
- String order: the default `sort` compares UTF-16 code units; the model compares characters. They differ only for characters outside the Basic Multilingual Plane.
- `DataProcessing.CountCategories`: `categoryCounts` is a plain object (`{}`) in the source and a map here. A category whose name is an inherited property of `Object.prototype` (`toString`, `constructor`, `valueOf`, `hasOwnProperty` and the like) reads that function on its first occurrence, so `(categoryCounts[c] || 0) + 1` stores a string, not 1. A category named `__proto__` assigns the object's prototype and gets no count of its own. The map counts every category, these included, as a number.
- `Math.min(...dates)` and `Math.max(...dates)` have an argument-count limit in JavaScript engines; not modelled.
- The `typeof` checks: a cell is a string or absent.
- The React components, context, `localStorage` and `App.tsx` are not part of this model.

## Findings

| source | as written | input that shows it | evidently intended | confidence | as-written member | corrected member |
|---|---|---|---|---|---|---|
| src/utils/chartDataProcessing.ts:27-47 | the day key is the UTC date of local midnight (`toISOString`); the label parses that key back as UTC midnight and shows it in local time | an expense of 15/01/2024 with the browser in Paris (UTC+1) is labelled `14/01` | the label names the day whose expenses the point holds | not executed | ChartLabels.DayLabelAsWrittenShifts | ChartLabels.DayLabelReadsBack |
| src/utils/validators.ts:33-35 | only `NaN` is rejected (`isNaN(amount)`) | the amount text `Infinity` is accepted as an infinite amount | amounts are finite numbers | not executed | Validators.InfinityPassesAsWritten | Validators.ValidateAmount |
