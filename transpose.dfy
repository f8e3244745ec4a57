/**
 * `transpose_row`: one wide row becomes zero or more long rows.  The first
 * eleven cells are the row's identity; every later cell is paired with the
 * header at the same position, and each pair whose value is present, numeric
 * and nonzero becomes one long row made of the identity, the header (the
 * Activity) and the value (the Amount).
 */
module Transpose {
  import opened Wrappers
  import opened Sequences
  import opened Cells

  /** The number of leading identity columns. */
  const FixedWidth: nat := 11

  /** A row of the long table: eleven identity cells, the Activity header and the Amount. */
  datatype LongRow = LongRow(fixed: seq<Cell>, activity: string, amount: Cell)

  /** The row's first eleven cells, padded with `None` when the row is shorter. */
  function FixedValues(row: seq<Cell>): (r: seq<Cell>)
    ensures |r| == FixedWidth
    ensures |row| >= FixedWidth ==> r == row[..FixedWidth]
    ensures forall k :: 0 <= k < FixedWidth ==> r[k] == if k < |row| then row[k] else Missing
  {
    if |row| >= FixedWidth then row[..FixedWidth]
    else row + seq(FixedWidth - |row|, _ => Missing)
  }

  /** The activity part of a header list or a row: everything from position eleven on. */
  function ActivityPart<T>(s: seq<T>): (r: seq<T>)
    ensures |r| == if |s| > FixedWidth then |s| - FixedWidth else 0
    ensures forall k :: 0 <= k < |r| ==> r[k] == s[FixedWidth + k]
  {
    if |s| > FixedWidth then s[FixedWidth..] else []
  }

  /** The guards of the loop: the value is not missing, parses as a number, and that number is not zero. */
  predicate Emits(value: Cell) {
    if IsMissing(value) then false
    else
      match FloatOf(value)
      case None => false
      case Some(n) => n != Zero
  }

  predicate EmitsPair(pair: (string, Cell)) {
    Emits(pair.1)
  }

  /**
   * A value is emitted exactly when it is not a float NaN and `float()`
   * gives a nonzero number for it: the string half of the missing-value
   * test never decides anything on its own.
   */
  lemma EmitsIff(value: Cell)
    ensures Emits(value) <==> value != Num(NaN) && FloatOf(value).Some? && FloatOf(value).value != Zero
  {
    if value.Text? && (Strip(value.s, IsSpace) == "-" || Strip(value.s, IsSpace) == "") {
      MarkerNeverParses(value.s);
    }
  }

  /** One long row per kept (header, value) pair, each prefixed with `fixed`. */
  function Attach(fixed: seq<Cell>, pairs: seq<(string, Cell)>): (r: seq<LongRow>)
    ensures |r| == |pairs|
    ensures forall k :: 0 <= k < |pairs| ==> r[k] == LongRow(fixed, pairs[k].0, pairs[k].1)
  {
    if pairs == [] then [] else [LongRow(fixed, pairs[0].0, pairs[0].1)] + Attach(fixed, pairs[1..])
  }

  lemma {:induction false} AttachAppend(fixed: seq<Cell>, a: seq<(string, Cell)>, b: seq<(string, Cell)>)
    ensures Attach(fixed, a + b) == Attach(fixed, a) + Attach(fixed, b)
  {
    if a != [] {
      assert (a + b)[1..] == a[1..] + b;
      AttachAppend(fixed, a[1..], b);
    }
  }

  /** Extending the pairs by one extends the long rows by at most that pair's row. */
  lemma EmitStep(fixed: seq<Cell>, pairs: seq<(string, Cell)>, i: nat)
    requires i < |pairs|
    ensures Attach(fixed, Filter(pairs[..i + 1], EmitsPair)) ==
      Attach(fixed, Filter(pairs[..i], EmitsPair))
      + (if Emits(pairs[i].1) then [LongRow(fixed, pairs[i].0, pairs[i].1)] else [])
  {
    assert pairs[..i + 1] == pairs[..i] + [pairs[i]];
    FilterAppend(pairs[..i], [pairs[i]], EmitsPair);
    AttachAppend(fixed, Filter(pairs[..i], EmitsPair), Filter([pairs[i]], EmitsPair));
  }

  /** The activity columns of `row`, each paired with its header. */
  function ActivityPairs(row: seq<Cell>, headers: seq<string>): seq<(string, Cell)> {
    Zip(ActivityPart(headers), ActivityPart(row))
  }

  /** What `transpose_row(row, headers)` returns. */
  function Transposed(row: seq<Cell>, headers: seq<string>): seq<LongRow> {
    Attach(FixedValues(row), Filter(ActivityPairs(row, headers), EmitsPair))
  }

  /** `transpose_row`: a loop over the zipped pairs that skips missing, non-numeric and zero values. */
  method TransposeRow(row: seq<Cell>, headers: seq<string>) returns (transposed: seq<LongRow>)
    ensures transposed == Transposed(row, headers)
    ensures forall r :: r in transposed ==> r.fixed == FixedValues(row)
    ensures |row| >= FixedWidth ==> forall r :: r in transposed ==> r.fixed == row[..FixedWidth]
    ensures var h := if |headers| > FixedWidth then |headers| - FixedWidth else 0;
            var v := if |row| > FixedWidth then |row| - FixedWidth else 0;
            |transposed| <= if h <= v then h else v
    ensures forall r :: r in transposed ==>
      !IsMissing(r.amount) && FloatOf(r.amount).Some? && FloatOf(r.amount).value != Zero
  {
    transposed := [];
    var fixed := FixedValues(row);
    var activityHeaders := ActivityPart(headers);
    var activityValues := ActivityPart(row);
    ghost var pairs := ActivityPairs(row, headers);
    var n := if |activityHeaders| <= |activityValues| then |activityHeaders| else |activityValues|;
    for i := 0 to n
      invariant transposed == Attach(fixed, Filter(pairs[..i], EmitsPair))
    {
      var header, value := activityHeaders[i], activityValues[i];
      assert pairs[i] == (header, value);
      EmitStep(fixed, pairs, i);
      if IsMissing(value) {
        assert !Emits(value);
        continue;
      }
      var number := FloatOf(value);
      if number.None? {
        assert !Emits(value);
        continue;
      }
      if number.value == Zero {
        assert !Emits(value);
        continue;
      }
      assert Emits(value);
      transposed := transposed + [LongRow(fixed, header, value)];
    }
    assert pairs[..n] == pairs;
    TransposedShape(row, headers);
    TransposedAmountsAreNonzeroNumbers(row, headers);
  }

  /** Every long row carries the row's identity cells, and there is at most one per activity column. */
  lemma TransposedShape(row: seq<Cell>, headers: seq<string>)
    ensures forall r :: r in Transposed(row, headers) ==> r.fixed == FixedValues(row)
    ensures var h := if |headers| > FixedWidth then |headers| - FixedWidth else 0;
            var v := if |row| > FixedWidth then |row| - FixedWidth else 0;
            |Transposed(row, headers)| <= if h <= v then h else v
  {
    var t := Transposed(row, headers);
    forall r | r in t
      ensures r.fixed == FixedValues(row)
    {
      var k :| 0 <= k < |t| && t[k] == r;
    }
  }

  /** Every emitted Amount is present, numeric and nonzero. */
  lemma TransposedAmountsAreNonzeroNumbers(row: seq<Cell>, headers: seq<string>)
    ensures forall r :: r in Transposed(row, headers) ==>
      && !IsMissing(r.amount)
      && FloatOf(r.amount).Some?
      && FloatOf(r.amount).value != Zero
  {
    var kept := Filter(ActivityPairs(row, headers), EmitsPair);
    forall r | r in Transposed(row, headers)
      ensures !IsMissing(r.amount) && FloatOf(r.amount).Some? && FloatOf(r.amount).value != Zero
    {
      var k :| 0 <= k < |kept| && Transposed(row, headers)[k] == r;
      assert kept[k] in kept;
    }
  }

  /**
   * The long rows are the kept activity columns in column order: there are
   * increasing column offsets `idx` such that the k-th long row holds header
   * and value number `FixedWidth + idx[k]`, and an offset within both lists
   * appears in `idx` exactly when its value is emitted.
   */
  lemma TransposedSelectsColumns(row: seq<Cell>, headers: seq<string>) returns (idx: seq<nat>)
    ensures |idx| == |Transposed(row, headers)|
    ensures Increasing(idx)
    ensures forall k :: 0 <= k < |idx| ==>
      && FixedWidth + idx[k] < |headers| && FixedWidth + idx[k] < |row|
      && Transposed(row, headers)[k] == LongRow(FixedValues(row), headers[FixedWidth + idx[k]], row[FixedWidth + idx[k]])
    ensures forall i :: 0 <= i && FixedWidth + i < |headers| && FixedWidth + i < |row| ==>
      (Emits(row[FixedWidth + i]) <==> i in idx)
  {
    var pairs := ActivityPairs(row, headers);
    idx := FilterIndices(pairs, EmitsPair);
    forall i | 0 <= i && FixedWidth + i < |headers| && FixedWidth + i < |row|
      ensures Emits(row[FixedWidth + i]) <==> i in idx
    {
      assert pairs[i] == (headers[FixedWidth + i], row[FixedWidth + i]);
    }
  }
}
