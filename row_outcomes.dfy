/**
 * The outcomes of the data rows, one per row in row order, and the two lists
 * `parseCSVFile` builds from them: the expenses and the row errors.
 */
module RowOutcomes {
  import opened ExpenseTypes

  /** What one data row yields. */
  datatype RowOutcome = Accepted(expense: Expense) | Rejected(error: ParseError)

  /** The expenses among the outcomes, in order. */
  function AcceptedOf(outcomes: seq<RowOutcome>): (r: seq<Expense>)
    ensures |r| <= |outcomes|
  {
    if |outcomes| == 0 then []
    else
      var last := outcomes[|outcomes| - 1];
      AcceptedOf(outcomes[..|outcomes| - 1]) + (if last.Accepted? then [last.expense] else [])
  }

  /** The errors among the outcomes, in order. */
  function RejectedOf(outcomes: seq<RowOutcome>): (r: seq<ParseError>)
    ensures |r| <= |outcomes|
  {
    if |outcomes| == 0 then []
    else
      var last := outcomes[|outcomes| - 1];
      RejectedOf(outcomes[..|outcomes| - 1]) + (if last.Rejected? then [last.error] else [])
  }

  /** The file line an outcome reports. */
  function LineOf(outcome: RowOutcome): int {
    if outcome.Accepted? then outcome.expense.originalRow else outcome.error.row
  }

  /** The `i`-th outcome reports line `i + 2` (line 1 is the header). */
  predicate NumberedFromLine2(outcomes: seq<RowOutcome>) {
    forall i :: 0 <= i < |outcomes| ==> LineOf(outcomes[i]) == i + 2
  }

  lemma OutcomesAppend(outcomes: seq<RowOutcome>, o: RowOutcome)
    ensures AcceptedOf(outcomes + [o]) == AcceptedOf(outcomes) + (if o.Accepted? then [o.expense] else [])
    ensures RejectedOf(outcomes + [o]) == RejectedOf(outcomes) + (if o.Rejected? then [o.error] else [])
  {
    assert (outcomes + [o])[..|outcomes|] == outcomes;
  }

  /** Every outcome is an expense or an error, never both and never neither. */
  lemma {:induction false} OutcomesAccountedFor(outcomes: seq<RowOutcome>)
    ensures |AcceptedOf(outcomes)| + |RejectedOf(outcomes)| == |outcomes|
  {
    if |outcomes| > 0 {
      OutcomesAccountedFor(outcomes[..|outcomes| - 1]);
    }
  }

  /** The expenses come in strictly increasing line order, within lines 2 to `|outcomes| + 1`. */
  lemma {:induction false} AcceptedLinesAscend(outcomes: seq<RowOutcome>)
    requires NumberedFromLine2(outcomes)
    ensures forall k :: 0 <= k < |AcceptedOf(outcomes)| ==> 2 <= AcceptedOf(outcomes)[k].originalRow < |outcomes| + 2
    ensures forall k, l :: 0 <= k < l < |AcceptedOf(outcomes)| ==>
      AcceptedOf(outcomes)[k].originalRow < AcceptedOf(outcomes)[l].originalRow
  {
    if |outcomes| > 0 {
      AcceptedLinesAscend(outcomes[..|outcomes| - 1]);
    }
  }

  /** The errors come in strictly increasing line order, within lines 2 to `|outcomes| + 1`. */
  lemma {:induction false} RejectedLinesAscend(outcomes: seq<RowOutcome>)
    requires NumberedFromLine2(outcomes)
    ensures forall k :: 0 <= k < |RejectedOf(outcomes)| ==> 2 <= RejectedOf(outcomes)[k].row < |outcomes| + 2
    ensures forall k, l :: 0 <= k < l < |RejectedOf(outcomes)| ==>
      RejectedOf(outcomes)[k].row < RejectedOf(outcomes)[l].row
  {
    if |outcomes| > 0 {
      RejectedLinesAscend(outcomes[..|outcomes| - 1]);
    }
  }

  /** Line `i + 2` has an expense iff the `i`-th outcome is one. */
  lemma {:induction false} AcceptedLine(outcomes: seq<RowOutcome>, i: int)
    requires NumberedFromLine2(outcomes)
    requires 0 <= i < |outcomes|
    ensures outcomes[i].Accepted? <==>
      exists k :: 0 <= k < |AcceptedOf(outcomes)| && AcceptedOf(outcomes)[k].originalRow == i + 2
  {
    var init, last := outcomes[..|outcomes| - 1], outcomes[|outcomes| - 1];
    var acc, acc0 := AcceptedOf(outcomes), AcceptedOf(init);
    assert outcomes == init + [last];
    OutcomesAppend(init, last);
    assert LineOf(last) == |init| + 2;
    assert NumberedFromLine2(init);
    AcceptedLinesAscend(init);
    if i < |init| {
      AcceptedLine(init, i);
      assert outcomes[i] == init[i];
      assert forall k :: 0 <= k < |acc0| ==> acc[k] == acc0[k];
      if last.Accepted? {
        assert acc[|acc0|].originalRow == |init| + 2;
      }
    } else {
      assert outcomes[i] == last;
      if last.Accepted? {
        assert acc[|acc0|].originalRow == i + 2;
      } else {
        assert acc == acc0;
      }
    }
  }

  /** Line `i + 2` has an error iff the `i`-th outcome is one. */
  lemma {:induction false} RejectedLine(outcomes: seq<RowOutcome>, i: int)
    requires NumberedFromLine2(outcomes)
    requires 0 <= i < |outcomes|
    ensures outcomes[i].Rejected? <==>
      exists k :: 0 <= k < |RejectedOf(outcomes)| && RejectedOf(outcomes)[k].row == i + 2
  {
    var init, last := outcomes[..|outcomes| - 1], outcomes[|outcomes| - 1];
    var rej, rej0 := RejectedOf(outcomes), RejectedOf(init);
    assert outcomes == init + [last];
    OutcomesAppend(init, last);
    assert LineOf(last) == |init| + 2;
    assert NumberedFromLine2(init);
    RejectedLinesAscend(init);
    if i < |init| {
      RejectedLine(init, i);
      assert outcomes[i] == init[i];
      assert forall k :: 0 <= k < |rej0| ==> rej[k] == rej0[k];
      if last.Rejected? {
        assert rej[|rej0|].row == |init| + 2;
      }
    } else {
      assert outcomes[i] == last;
      if last.Rejected? {
        assert rej[|rej0|].row == i + 2;
      } else {
        assert rej == rej0;
      }
    }
  }

  /** Each expense is the outcome of some row. */
  lemma {:induction false} AcceptedFromSomeRow(outcomes: seq<RowOutcome>, k: int)
    requires 0 <= k < |AcceptedOf(outcomes)|
    ensures exists i :: 0 <= i < |outcomes| && outcomes[i] == Accepted(AcceptedOf(outcomes)[k])
  {
    var init := outcomes[..|outcomes| - 1];
    if k < |AcceptedOf(init)| {
      AcceptedFromSomeRow(init, k);
      var i :| 0 <= i < |init| && init[i] == Accepted(AcceptedOf(init)[k]);
      assert outcomes[i] == init[i];
    } else {
      assert outcomes[|outcomes| - 1] == Accepted(AcceptedOf(outcomes)[k]);
    }
  }
}
