/**
 * The transform as `main` runs it once a table has been read: every row is
 * transposed and the results are concatenated in row order into the long
 * table; an empty long table is reported as "no valid data", otherwise the
 * long table gets the columns `headers[:11] + ['Activity', 'Amount']` and
 * goes through the post-filter chain.
 */
module Pipeline {
  import opened Sequences
  import opened Cells
  import opened Transpose
  import opened Filters

  /** `transpose_row` with the header list fixed. */
  function TransposeWith(headers: seq<string>): seq<Cell> -> seq<LongRow> {
    row => Transposed(row, headers)
  }

  /** The long table: the transposed rows of every input row, in input order. */
  function LongTable(rows: seq<seq<Cell>>, headers: seq<string>): seq<LongRow> {
    FlatMap(rows, TransposeWith(headers))
  }

  /** The accumulation loop: `all_transposed_rows.extend(transpose_row(row, headers))` for each row. */
  method TransposeTable(rows: seq<seq<Cell>>, headers: seq<string>) returns (allTransposed: seq<LongRow>)
    ensures allTransposed == LongTable(rows, headers)
  {
    allTransposed := [];
    for i := 0 to |rows|
      invariant allTransposed == LongTable(rows[..i], headers)
    {
      var transposed := TransposeRow(rows[i], headers);
      LongTableSnoc(rows, i, headers);
      allTransposed := allTransposed + transposed;
    }
    assert rows[..|rows|] == rows;
  }

  lemma LongTableSnoc(rows: seq<seq<Cell>>, i: nat, headers: seq<string>)
    requires i < |rows|
    ensures LongTable(rows[..i + 1], headers) == LongTable(rows[..i], headers) + Transposed(rows[i], headers)
  {
    assert rows[..i + 1] == rows[..i] + [rows[i]];
    FlatMapSnoc(rows[..i], rows[i], TransposeWith(headers));
  }

  /**
   * Nothing is reordered or dropped while accumulating: the rows coming from
   * input row `i` form one block, after the blocks of the rows before it and
   * before the blocks of the rows after it.
   */
  lemma LongTableBlocks(rows: seq<seq<Cell>>, headers: seq<string>, i: nat)
    requires i < |rows|
    ensures LongTable(rows, headers) ==
      LongTable(rows[..i], headers) + Transposed(rows[i], headers) + LongTable(rows[i + 1..], headers)
  {
    assert rows == (rows[..i] + [rows[i]]) + rows[i + 1..];
    FlatMapAppend(rows[..i] + [rows[i]], rows[i + 1..], TransposeWith(headers));
    FlatMapSnoc(rows[..i], rows[i], TransposeWith(headers));
  }

  /**
   * Every long row comes from some input row: it carries that row's identity
   * cells, and its Amount is present, numeric and nonzero.
   */
  lemma {:induction false} LongTableRows(rows: seq<seq<Cell>>, headers: seq<string>)
    ensures forall r :: r in LongTable(rows, headers) ==>
      && (exists i :: 0 <= i < |rows| && r.fixed == FixedValues(rows[i]))
      && !IsMissing(r.amount)
      && FloatOf(r.amount).Some?
      && FloatOf(r.amount).value != Zero
  {
    if rows != [] {
      var init, last := rows[..|rows| - 1], rows[|rows| - 1];
      LongTableRows(init, headers);
      TransposedAmountsAreNonzeroNumbers(last, headers);
      forall r | r in LongTable(rows, headers)
        ensures exists i :: 0 <= i < |rows| && r.fixed == FixedValues(rows[i])
      {
        if r in LongTable(init, headers) {
          var i :| 0 <= i < |init| && r.fixed == FixedValues(init[i]);
          assert rows[i] == init[i];
        } else {
          var kept := Filter(ActivityPairs(last, headers), EmitsPair);
          var k :| 0 <= k < |kept| && Transposed(last, headers)[k] == r;
          assert r.fixed == FixedValues(rows[|rows| - 1]);
        }
      }
    }
  }

  /** A row yields long rows only through activity columns, so a nonempty long table means more than eleven headers. */
  lemma {:induction false} LongTableNeedsActivityColumns(rows: seq<seq<Cell>>, headers: seq<string>)
    ensures LongTable(rows, headers) != [] ==> |headers| > FixedWidth
  {
    if rows != [] {
      LongTableNeedsActivityColumns(rows[..|rows| - 1], headers);
      if |headers| <= FixedWidth {
        assert ActivityPart(headers) == [];
        assert ActivityPairs(rows[|rows| - 1], headers) == [];
      }
    }
  }

  /** The column names of the long table: `headers[:11] + ['Activity', 'Amount']`. */
  function OutputColumns(headers: seq<string>): seq<string> {
    (if |headers| >= FixedWidth then headers[..FixedWidth] else headers) + ["Activity", "Amount"]
  }

  /**
   * One of the eleven identity headers is named `Activity` or `Amount`.  The
   * long table then has two columns of that name; selecting the column
   * yields a frame instead of a column, the text or numeric conversion of
   * the post-filter raises, and `main` reports an error instead of a table.
   */
  predicate NameClash(headers: seq<string>) {
    exists k :: 0 <= k < |headers| && k < FixedWidth && (headers[k] == "Activity" || headers[k] == "Amount")
  }

  /** What `main` shows after transforming a table. */
  datatype Outcome = NoValidData | Failed | Transformed(columns: seq<string>, report: Report)

  /**
   * The transform of `main`: "no valid data" when the long table is empty;
   * an error when an identity header clashes with a new column name;
   * otherwise the long table with one column name per cell of its rows
   * (eleven identity names, Activity and Amount), post-filtered.
   */
  function Transform(rows: seq<seq<Cell>>, headers: seq<string>): (o: Outcome)
    ensures o.NoValidData? <==> LongTable(rows, headers) == []
    ensures o.Failed? <==> LongTable(rows, headers) != [] && NameClash(headers)
    ensures o.Transformed? ==>
      && |headers| > FixedWidth
      && |o.columns| == FixedWidth + 2
      && o.columns[..FixedWidth] == headers[..FixedWidth]
      && o.columns[FixedWidth..] == ["Activity", "Amount"]
      && (forall k :: 0 <= k < FixedWidth ==> o.columns[k] != "Activity" && o.columns[k] != "Amount")
      && o.report.initialCount == |LongTable(rows, headers)|
      && o.report.filteredCount == |o.report.rows| <= o.report.initialCount
  {
    var long := LongTable(rows, headers);
    if long == [] then NoValidData
    else if NameClash(headers) then Failed
    else
      LongTableNeedsActivityColumns(rows, headers);
      Transformed(OutputColumns(headers), PostFilter(long))
  }

  /** Accumulate the long table with the loop, then name its columns and post-filter it. */
  method Process(rows: seq<seq<Cell>>, headers: seq<string>) returns (o: Outcome)
    ensures o == Transform(rows, headers)
  {
    var allTransposed := TransposeTable(rows, headers);
    if allTransposed == [] {
      return NoValidData;
    }
    LongTableNeedsActivityColumns(rows, headers);
    var identityNames := headers[..FixedWidth];
    if "Activity" in identityNames || "Amount" in identityNames {
      assert NameClash(headers) by {
        var k :| 0 <= k < FixedWidth && identityNames[k] in {"Activity", "Amount"};
        assert headers[k] == identityNames[k];
      }
      return Failed;
    }
    assert !NameClash(headers) by {
      forall k | 0 <= k < |headers| && k < FixedWidth
        ensures headers[k] != "Activity" && headers[k] != "Amount"
      {
        assert headers[k] == identityNames[k];
      }
    }
    var columns := identityNames + ["Activity", "Amount"];
    var report := PostFilter(allTransposed);
    o := Transformed(columns, report);
  }

  /**
   * Every row the post-filter keeps from the long table carries the identity
   * cells of one input row, an Activity that does not mention `balance` in
   * any letter case, and an Amount that is a nonzero, non-NaN number; the
   * zero filter never removes a row that the transposition produced.
   */
  lemma PostFilteredLongTable(rows: seq<seq<Cell>>, headers: seq<string>)
    ensures forall r :: r in PostFilter(LongTable(rows, headers)).rows ==>
      && (exists i :: 0 <= i < |rows| && r.fixed == FixedValues(rows[i]))
      && (forall i :: !OccursAt(r.activity, BalanceLabel, i))
      && r.amount.Num?
      && UsableAmount(r.amount.n)
    ensures var long := LongTable(rows, headers);
      Filter(Coerced(long), NonzeroAmount) == Coerced(long)
  {
    var long := LongTable(rows, headers);
    LongTableRows(rows, headers);
    ZeroDropRemovesNothing(long);
    PostFilterGuarantees(long);
    PostFilteredProvenance(rows, headers);
  }

  /** Every row the post-filter keeps from the long table carries the identity cells of one input row. */
  lemma PostFilteredProvenance(rows: seq<seq<Cell>>, headers: seq<string>)
    ensures forall r :: r in PostFilter(LongTable(rows, headers)).rows ==>
      exists i :: 0 <= i < |rows| && r.fixed == FixedValues(rows[i])
  {
    var long := LongTable(rows, headers);
    LongTableRows(rows, headers);
    var idx := PostFilterSelects(long);
    var out := PostFilter(long).rows;
    forall r | r in out
      ensures exists i :: 0 <= i < |rows| && r.fixed == FixedValues(rows[i])
    {
      var k :| 0 <= k < |out| && out[k] == r;
      assert long[idx[k]] in long;
    }
  }

  /** What the final table of a successful transform guarantees. */
  lemma TransformGuarantees(rows: seq<seq<Cell>>, headers: seq<string>)
    ensures Transform(rows, headers).Transformed? ==>
      var out := Transform(rows, headers).report.rows;
      forall r :: r in out ==>
        && (exists i :: 0 <= i < |rows| && r.fixed == FixedValues(rows[i]))
        && (forall i :: !OccursAt(r.activity, BalanceLabel, i))
        && r.amount.Num?
        && UsableAmount(r.amount.n)
  {
    PostFilteredLongTable(rows, headers);
    if Transform(rows, headers).Transformed? {
      assert Transform(rows, headers).report.rows == PostFilter(LongTable(rows, headers)).rows;
    }
  }
}
