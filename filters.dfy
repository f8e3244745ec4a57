/**
 * The post-filter chain applied to the long table: drop rows whose Activity
 * is `Balance`, drop rows whose Activity contains `balance` in any letter
 * case, replace each Amount by its numeric value (NaN when it does not
 * parse), drop zero Amounts, drop NaN Amounts.  The row counts before and
 * after are reported.
 */
module Filters {
  import opened Wrappers
  import opened Sequences
  import opened Cells
  import opened Transpose

  /** `pattern` occurs in `s` at position `i` when letter case is ignored. */
  ghost predicate OccursAt(s: string, pattern: string, i: int) {
    && 0 <= i
    && i + |pattern| <= |s|
    && forall j :: 0 <= j < |pattern| ==> Lower(s[i + j]) == Lower(pattern[j])
  }

  /** `s` begins with `pattern` when letter case is ignored. */
  predicate StartsWithIgnoringCase(s: string, pattern: string) {
    |pattern| <= |s| && forall j :: 0 <= j < |pattern| ==> Lower(s[j]) == Lower(pattern[j])
  }

  /**
   * pandas' `str.contains(pattern, case=False)` for a pattern without
   * regular-expression metacharacters: try every start position from the left.
   */
  predicate ContainsIgnoringCase(s: string, pattern: string) {
    StartsWithIgnoringCase(s, pattern) || (s != [] && ContainsIgnoringCase(s[1..], pattern))
  }

  /** The scan finds the pattern exactly when it occurs somewhere. */
  lemma {:induction false} ContainsIgnoringCaseIff(s: string, pattern: string)
    ensures ContainsIgnoringCase(s, pattern) <==> exists i :: OccursAt(s, pattern, i)
  {
    if StartsWithIgnoringCase(s, pattern) {
      assert OccursAt(s, pattern, 0);
    } else if s == [] {
      assert forall i :: !OccursAt(s, pattern, i);
    } else {
      ContainsIgnoringCaseIff(s[1..], pattern);
      if ContainsIgnoringCase(s[1..], pattern) {
        var i :| OccursAt(s[1..], pattern, i);
        assert OccursAt(s, pattern, i + 1) by {
          forall j | 0 <= j < |pattern|
            ensures Lower(s[i + 1 + j]) == Lower(pattern[j])
          {
            assert s[i + 1 + j] == s[1..][i + j];
          }
        }
      } else {
        forall i | OccursAt(s, pattern, i)
          ensures false
        {
          if i == 0 {
            assert StartsWithIgnoringCase(s, pattern);
          } else {
            assert OccursAt(s[1..], pattern, i - 1) by {
              forall j | 0 <= j < |pattern|
                ensures Lower(s[1..][i - 1 + j]) == Lower(pattern[j])
              {
                assert s[1..][i - 1 + j] == s[i + j];
              }
            }
          }
        }
      }
    }
  }

  const BalanceLabel: string := "Balance"

  /** `new_df['Activity'] != 'Balance'`. */
  predicate NotBalanceLabel(r: LongRow) {
    r.activity != BalanceLabel
  }

  /** `~new_df['Activity'].astype(str).str.contains('Balance', case=False, na=False)`. */
  predicate NoBalanceMention(r: LongRow) {
    !ContainsIgnoringCase(r.activity, BalanceLabel)
  }

  /** `pd.to_numeric(new_df['Amount'], errors='coerce')` on one row. */
  function CoerceAmount(r: LongRow): (c: LongRow)
    ensures c.fixed == r.fixed && c.activity == r.activity
    ensures c.amount.Num? && c.amount.n == ToNumeric(r.amount)
  {
    LongRow(r.fixed, r.activity, Num(ToNumeric(r.amount)))
  }

  /** `new_df['Amount'] != 0`; a NaN Amount is not equal to zero and passes. */
  predicate NonzeroAmount(r: LongRow) {
    r.amount != Num(Zero)
  }

  /** `dropna(subset=['Amount'])` keeps the rows whose Amount is not NA. */
  predicate HasAmount(r: LongRow) {
    !IsNa(r.amount)
  }

  /** The long table after the two Balance filters. */
  function WithoutBalance(t: seq<LongRow>): seq<LongRow> {
    Filter(Filter(t, NotBalanceLabel), NoBalanceMention)
  }

  /** The long table after the Amount column has been coerced to numbers. */
  function Coerced(t: seq<LongRow>): seq<LongRow> {
    MapSeq(WithoutBalance(t), CoerceAmount)
  }

  /** The rows that survive, and the counts shown to the user. */
  datatype Report = Report(rows: seq<LongRow>, initialCount: nat, filteredCount: nat)

  /** The post-filter chain over the whole long table. */
  function PostFilter(t: seq<LongRow>): (report: Report)
    ensures report.initialCount == |t|
    ensures report.filteredCount == |report.rows| <= report.initialCount
  {
    var rows := Filter(Filter(Coerced(t), NonzeroAmount), HasAmount);
    Report(rows, |t|, |rows|)
  }

  /** A number the final table accepts: neither zero nor NaN. */
  predicate UsableAmount(n: Number) {
    n != Zero && n != NaN
  }

  /** The single test equivalent to the whole chain, stated on the row before coercion. */
  predicate Survives(r: LongRow) {
    NoBalanceMention(r) && UsableAmount(ToNumeric(r.amount))
  }

  predicate CoercesNonzero(r: LongRow) {
    ToNumeric(r.amount) != Zero
  }

  predicate CoercesToNumber(r: LongRow) {
    ToNumeric(r.amount) != NaN
  }

  predicate CoercesUsable(r: LongRow) {
    UsableAmount(ToNumeric(r.amount))
  }

  /**
   * For a value `transpose_row` emitted, the coercion gives the very number
   * `float()` gave, and that number is not zero.
   */
  lemma CoercionKeepsEmittedAmount(c: Cell)
    ensures Emits(c) ==> ToNumeric(c) == FloatOf(c).value && ToNumeric(c) != Zero
  {
    EmitsIff(c);
  }

  /** The exact `Balance` test only removes rows the case-insensitive test removes as well. */
  lemma BalanceLabelIsMention(r: LongRow)
    ensures !NoBalanceMention(r) || NotBalanceLabel(r)
  {
    if r.activity == BalanceLabel {
      assert StartsWithIgnoringCase(r.activity, BalanceLabel);
    }
  }

  /** The first Balance filter is redundant: both together drop exactly the rows mentioning `balance`. */
  lemma WithoutBalanceIsOneFilter(t: seq<LongRow>)
    ensures WithoutBalance(t) == Filter(t, NoBalanceMention)
  {
    forall r: LongRow
      ensures NoBalanceMention(r) ==> NotBalanceLabel(r)
    {
      BalanceLabelIsMention(r);
    }
    FilterAbsorb(t, NotBalanceLabel, NoBalanceMention);
  }

  /** The whole chain equals one filter by `Survives` followed by the coercion of the Amount. */
  lemma PostFilterIsOneFilter(t: seq<LongRow>)
    ensures PostFilter(t).rows == MapSeq(Filter(t, Survives), CoerceAmount)
  {
    var kept := WithoutBalance(t);
    WithoutBalanceIsOneFilter(t);
    assert forall x :: CoercesNonzero(x) == NonzeroAmount(CoerceAmount(x));
    FilterMap(kept, CoerceAmount, CoercesNonzero, NonzeroAmount);
    assert forall x :: CoercesToNumber(x) == HasAmount(CoerceAmount(x));
    FilterMap(Filter(kept, CoercesNonzero), CoerceAmount, CoercesToNumber, HasAmount);
    FilterFilter(kept, CoercesNonzero, CoercesToNumber, CoercesUsable);
    FilterFilter(t, NoBalanceMention, CoercesUsable, Survives);
  }

  /**
   * The surviving rows are the rows of `t` that pass `Survives`, in their
   * original order, each with its Amount replaced by its numeric value.
   */
  lemma PostFilterSelects(t: seq<LongRow>) returns (idx: seq<nat>)
    ensures |idx| == |PostFilter(t).rows|
    ensures Increasing(idx)
    ensures forall k :: 0 <= k < |idx| ==> idx[k] < |t| && PostFilter(t).rows[k] == CoerceAmount(t[idx[k]])
    ensures forall i :: 0 <= i < |t| ==> (Survives(t[i]) <==> i in idx)
  {
    PostFilterIsOneFilter(t);
    idx := FilterIndices(t, Survives);
  }

  /** No surviving row mentions `balance` in any letter case, and every Amount is a nonzero, non-NaN number. */
  lemma PostFilterGuarantees(t: seq<LongRow>)
    ensures forall r :: r in PostFilter(t).rows ==>
      && r.activity != BalanceLabel
      && (forall i :: !OccursAt(r.activity, BalanceLabel, i))
      && r.amount.Num?
      && UsableAmount(r.amount.n)
  {
    PostFilterIsOneFilter(t);
    var kept := Filter(t, Survives);
    forall r | r in PostFilter(t).rows
      ensures r.activity != BalanceLabel
      ensures forall i :: !OccursAt(r.activity, BalanceLabel, i)
      ensures r.amount.Num? && UsableAmount(r.amount.n)
    {
      var k :| 0 <= k < |kept| && PostFilter(t).rows[k] == r;
      assert kept[k] in kept;
      ContainsIgnoringCaseIff(r.activity, BalanceLabel);
      BalanceLabelIsMention(r);
    }
  }

  /**
   * On rows whose Amount `transpose_row` already accepted, the zero filter
   * removes nothing, and the NA filter removes exactly the rows whose Amount
   * reads as NaN (a text such as `nan` that `float()` accepts).
   */
  lemma ZeroDropRemovesNothing(t: seq<LongRow>)
    requires forall r :: r in t ==> Emits(r.amount)
    ensures Filter(Coerced(t), NonzeroAmount) == Coerced(t)
    ensures forall k :: 0 <= k < |Coerced(t)| ==>
      (HasAmount(Coerced(t)[k]) <==> FloatOf(WithoutBalance(t)[k].amount) != Some(NaN))
  {
    var kept := WithoutBalance(t);
    forall k | 0 <= k < |Coerced(t)|
      ensures NonzeroAmount(Coerced(t)[k])
      ensures HasAmount(Coerced(t)[k]) <==> FloatOf(kept[k].amount) != Some(NaN)
    {
      assert kept[k] in Filter(t, NotBalanceLabel);
    }
    FilterKeepsAll(Coerced(t), NonzeroAmount);
  }
}
