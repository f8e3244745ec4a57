# finance-Transformer: the wide-to-long transform

This project models the core of the finance-Transformer app: how an uploaded
table becomes a long table, and how that long table is filtered.

Each input row has eleven identity columns, followed by one column per
activity (Rent, Utilities, ...). `transpose_row` turns one wide row into one
long row per activity whose value is present, numeric and nonzero. A long row
holds the eleven identity cells, the activity's header (the *Activity*) and
the value (the *Amount*). `main` concatenates the long rows of every input
row in input order. An empty result is reported as "no valid data".
Otherwise the long table gets the columns `headers[:11] + ['Activity',
'Amount']` and goes through a post-filter chain:

1. drop rows whose Activity is exactly `Balance`;
2. drop rows whose Activity contains `balance` in any letter case;
3. coerce the Amount to a number (NaN when it does not parse);
4. drop zero Amounts;
5. drop NaN Amounts.

The app reports the row counts before and after the chain.

Modules:

- `Wrappers`: `Option`.
- `Sequences`: generic filter, map, zip and flat-map over sequences. It also
  has the lemmas about them that the rest of the project uses, including
  "a filter keeps exactly the matching elements, in order".
- `Cells`: the values a row holds.
  - A cell is `None`, a string or a float.
  - A float is finite, an infinity or NaN.
  - Also here: pandas' `isna`, Python's `str.strip()`, Python's `float()` on
    strings, and pandas' `to_numeric(errors='coerce')`.
- `Transpose`: `transpose_row`. The method `TransposeRow` keeps the source's
  loop and its three `continue` guards. It is proved equal to the
  specification function `Transposed`, a filter over the zipped
  (header, value) pairs.
- `Filters`: the post-filter chain, and the proof that it is equivalent to a
  single filter followed by the Amount coercion.
- `Pipeline`: the accumulation loop of `main` (`TransposeTable`), the whole
  transform (`Transform` and `Process`), and what the final table guarantees.
- `Scenarios`: concrete rows and what the transform does with them.

Three points about what the code does:

- Non-numeric activity values: `transpose_row` skips a value that `float()`
  rejects, such as `abc`, and so does the model (`Scenarios.TextIsSkipped`).
- Counts: only the counts before and after the post-filter are reported.
- Name clashes: if one of the eleven identity headers is itself `Activity` or
  `Amount`, the long table has two columns of that name. The post-filter
  then raises, and `main` shows an error instead of a table. The model
  reports this as the outcome `Failed` (`Scenarios.AmountHeaderFails`).

## Model

| member | source | states |
|---|---|---|
| Cells.Strip | app.py:31-36 | Stripping with a given whitespace set: the result is the slice of the input after its leading whitespace. Only whitespace follows it, and its first and last characters are not whitespace. With Python's `isspace` set (`Cells.IsSpace`) it is `str.strip()`. With `Cells.IsFloatSpace`, the same set without U+001C..U+001F, it is the trimming `float()` does. |
| Cells.IsNa | app.py:31 | `pd.isna(value)`: the cell is `None` or a float NaN. |
| Cells.BlankNeverParses | app.py:36-39 | A string made only of whitespace and dashes is rejected by `float()`, even when it holds U+001C..U+001F, which `float()` does not strip. |
| Cells.NoNumeralStart | app.py:36-39 | A string that starts with whitespace or a dash is not `inf`, `infinity` or `nan`, and is not a decimal numeral. |
| Cells.MarkerNeverParses | app.py:31-39 | A string that strips to `-` or to nothing is never accepted by `float()`. So the string half of the missing-value test skips only values the parse guard would skip anyway. |
| Cells.IsMissing | app.py:31 | The missing-value test: `None`, a float NaN, or a string that strips to `-` or to nothing. Its partner is `Transpose.EmitsIff`. |
| Cells.ParseFloat | app.py:36 | `float()` on a string: surrounding whitespace is ignored, except U+001C..U+001F, which `float()` keeps and then rejects. Then an optional sign, then `inf`, `infinity` or `nan` in any case, or a decimal numeral with an optional exponent. Its all-inputs property is `Cells.ParseFloatIsZero`. |
| Cells.FloatOf | app.py:36-38 | `float(value)` on a cell: a number is itself, a string goes through `float()`, and `None` raises (`TypeError`). |
| Cells.ParseFloatIsZero | app.py:36 | For every string: `float(s) == 0` exactly when `s`, stripped as `float()` strips and without its sign, is a decimal numeral whose digits before the exponent are all `0`. So `inf`, `nan` and `0.01` are not zero; `-0.00` and `.0e5` are. |
| Cells.ParseDecimalZero | app.py:36 | A decimal numeral that parses has the value zero exactly when all its digits before the exponent are `0`. |
| Cells.ParseDecimalLayout | app.py:36 | A numeral that parses is made of integer digits, an optional point, fraction digits (only after a point), and then nothing or an exponent starting with `e` or `E`. The exponent text reads as `e`, and the value is that of the integer and fraction digits, scaled by `e`. |
| Cells.NumeralValueZero | app.py:36 | A numeral's value is zero exactly when its integer and fraction digits are all `0`. |
| Cells.LayoutZero | app.py:36 | For a numeral with that layout, "value zero" and "every digit before the exponent is `0`" coincide. |
| Cells.MantissaLayout | app.py:36 | In that layout, the digits before the first `e`/`E` are exactly the integer and fraction digits. |
| Cells.DigitsValueZero | app.py:36 | A digit string has value zero exactly when every digit is `0`. |
| Cells.ScaleZero | app.py:36 | A decimal numeral equals zero exactly when its mantissa is zero, whatever its exponent. |
| Transpose.FixedValues | app.py:23 | The identity part has exactly eleven cells: the row's first eleven, padded with `None` when the row is shorter. |
| Transpose.ActivityPart | app.py:26-27 | The activity headers, or the activity values, are the items from position eleven on, with length and contents given pointwise. There are none when there are at most eleven items. |
| Transpose.Emits | app.py:31-39 | The three guards of the loop: the value is not missing, `float()` accepts it, and the number is not zero. |
| Transpose.EmitsIff | app.py:31-39 | A value passes the guards exactly when it is not a float NaN and `float()` gives a nonzero number for it. The string half of the missing-value test never decides on its own. |
| Transpose.TransposeRow | app.py:18-45 | The loop returns the specification `Transposed`. Every long row carries the row's identity cells (its first eleven when it has that many). There are at most min(#activity headers, #activity values) long rows. Every Amount is present, parses, and is not zero. |
| Transpose.EmitStep | app.py:29-43 | One loop step appends the long row for pair `i` exactly when its value passes the three guards, and appends nothing otherwise. |
| Transpose.TransposedShape | app.py:23-43 | Every long row carries `FixedValues(row)`. There is at most one long row per zipped activity column. |
| Transpose.TransposedAmountsAreNonzeroNumbers | app.py:29-40 | No Amount in the result is missing, unparsable or zero. |
| Transpose.TransposedSelectsColumns | app.py:29-43 | The long rows are the kept activity columns in column order. Long row k holds header and value number `11 + idx[k]`, with `idx` increasing. A column shared by headers and row is kept exactly when its value passes the guards. |
| Filters.ContainsIgnoringCaseIff | app.py:127 | The left-to-right scan reports `pattern` in `s` exactly when it occurs at some position with letter case ignored (both directions). |
| Filters.NotBalanceLabel | app.py:126 | The first filter keeps a row unless its Activity is exactly `Balance`. |
| Filters.NoBalanceMention | app.py:127 | The second filter keeps a row unless its Activity contains `balance` in any letter case. Its partner is `Filters.ContainsIgnoringCaseIff`. |
| Filters.NonzeroAmount | app.py:131 | The zero filter keeps a row unless its coerced Amount equals zero. NaN is not equal to zero and passes. |
| Filters.HasAmount | app.py:132 | `dropna` keeps a row unless its Amount is NA. |
| Filters.CoercionKeepsEmittedAmount | app.py:130 | For a value `transpose_row` emitted, the coercion gives the very number `float()` gave, and it is not zero. |
| Filters.CoerceAmount | app.py:130 | Coercion keeps the identity cells and the Activity. It replaces the Amount by the number `to_numeric` gives. |
| Filters.PostFilter | app.py:124-133 | The initial count is the size of the long table. The filtered count is the number of surviving rows and never exceeds it. |
| Filters.BalanceLabelIsMention | app.py:126-127 | A row the exact `Balance` test removes is also removed by the case-insensitive test. |
| Filters.WithoutBalanceIsOneFilter | app.py:126-127 | The two Balance filters together equal the case-insensitive filter alone. |
| Filters.PostFilterIsOneFilter | app.py:126-132 | The whole chain equals one filter followed by the Amount coercion. The filter keeps rows that do not mention `balance` and whose Amount coerces to a number that is neither zero nor NaN. |
| Filters.PostFilterSelects | app.py:126-132 | Surviving row k is the coercion of input row `idx[k]`, with `idx` increasing. An input row is selected exactly when it passes that test, so the chain neither reorders nor duplicates rows. |
| Filters.PostFilterGuarantees | app.py:126-132 | No surviving Activity is `Balance` or contains `balance` in any letter case. Every surviving Amount is a number that is neither zero nor NaN. |
| Filters.ZeroDropRemovesNothing | app.py:130-132 | On a long table built by `transpose_row`, the zero filter removes no row. The NA filter removes exactly the rows whose Amount reads as NaN. |
| Pipeline.LongTable | app.py:113-117 | The long table: the long rows of every input row, concatenated in input order. `Pipeline.TransposeTable` computes it and `Pipeline.LongTableBlocks` characterises it. |
| Pipeline.TransposeTable | app.py:113-117 | The accumulation loop returns the concatenation, in row order, of `transpose_row` over every input row. |
| Pipeline.LongTableSnoc | app.py:115-117 | One more input row appends exactly that row's long rows. |
| Pipeline.LongTableBlocks | app.py:115-117 | The long rows of input row i form one contiguous block. It follows the blocks of the earlier rows and precedes those of the later rows. |
| Pipeline.LongTableRows | app.py:115-117 | Every long row carries the identity cells of some input row. Its Amount is present, numeric and nonzero. |
| Pipeline.LongTableNeedsActivityColumns | app.py:120-121 | A nonempty long table implies more than eleven headers, so `headers[:11]` has eleven names. |
| Pipeline.NameClash | app.py:121-130 | One of the first eleven headers is `Activity` or `Amount`, so the long table has two columns of that name. |
| Pipeline.Transform | app.py:120-180 | The result is "no valid data" exactly when the long table is empty. It is `Failed` exactly when the long table is nonempty and an identity header clashes with a new column name. Otherwise: there are thirteen column names, the first eleven headers then `Activity` and `Amount`, and no identity name is `Activity` or `Amount`; the initial count is the long table's size; the filtered count is the number of surviving rows. |
| Pipeline.Process | app.py:113-133 | Accumulating with the loop, checking for a name clash and then filtering gives the outcome of `Transform`. |
| Pipeline.PostFilteredLongTable | app.py:113-133 | Every row kept from the long table carries some input row's identity cells, an Activity that does not mention `balance`, and an Amount that is a number other than zero or NaN. The zero filter removes nothing from a long table built this way. |
| Pipeline.PostFilteredProvenance | app.py:113-133 | Every row kept from the long table carries the identity cells of some input row. |
| Pipeline.TransformGuarantees | app.py:113-133 | The same guarantees for the final table of a transform that succeeds. |
| Scenarios.TwoColumnPairs | app.py:23-29 | For a row with two activity columns, the zipped pairs are the two (header, value) pairs and the identity is the first eleven cells. |
| Scenarios.OneColumn | app.py:29-43 | A single (header, value) pair yields one long row when its value passes the guards, and none otherwise. |
| Scenarios.OneRowTable | app.py:115-117 | A table of one row yields exactly that row's long rows. |
| Scenarios.OnlySecondEmits | app.py:29-43 | When only the second of two activity values passes the guards, the row yields exactly one long row, for the second column. |
| Scenarios.TwoColumnTransposed | app.py:29-43 | A row with two activity columns yields the long rows of the passing values, in column order. |
| Scenarios.DashIsMissing | app.py:31 | The string `-` is a missing marker. |
| Scenarios.LettersDoNotParse | app.py:36-39 | `float('abc')` raises. |
| Scenarios.SeparatorIsNotIgnored | app.py:31-39 | `\x1c5` strips to `5`, so it is not a missing marker, but `float()` rejects it and `transpose_row` skips it. |
| Scenarios.ZeroTextParsesToZero | app.py:36 | `float('0.00')` is zero: it is a numeral whose digits are all `0`. |
| Scenarios.DecimalBodyParses | app.py:36 | The numeral `12.5` has the value twelve and a half. |
| Scenarios.DecimalTextParses | app.py:130 | `12.5` coerces to twelve and a half. |
| Scenarios.DashIsSkipped | app.py:31-32 | Rent `-` and Utilities 500 yield one long row, for Utilities. |
| Scenarios.ZerosAreSkipped | app.py:36-37 | A numeric zero and the text `0.00` yield no long row. |
| Scenarios.TextIsSkipped | app.py:38-39 | Rent `abc` is skipped, and Utilities 20 yields the only long row. |
| Scenarios.BalanceIsTransposed | app.py:29-43 | A `Balance` column with value 1000 becomes a long row. |
| Scenarios.BalanceIsFilteredOut | app.py:126 | A long row whose Activity is `Balance` is removed: the counts are 1 and 0. |
| Scenarios.MentionIsFilteredOut | app.py:127 | A long row whose Activity is `Opening BALANCE` is removed: the counts are 1 and 0. |
| Scenarios.AmountIsCoerced | app.py:130 | A surviving text Amount `12.5` is replaced by the number 12.5. |
| Scenarios.ClashingTableIsNotEmpty | app.py:115-120 | A table whose fourth identity header is `Amount`, with one row that has a nonzero Rent, has a nonempty long table. |
| Scenarios.AmountHeaderFails | app.py:121-130 | For that table, the transform fails. |

## Left out

- The Streamlit interface: page layout, the uploader, the dataframe views,
  the messages, and the download buttons with their CSV and Excel export.
- File reading:
  - the choice between Excel and CSV;
  - trying each delimiter in turn;
  - how pandas infers the cell types.
  The model starts from the header list and the rows as cells.
- The top-level `try`/`except` around the whole transform, and the error
  message it shows. The one failure of the transform itself that the model
  keeps is the name clash (`Pipeline.NameClash`). Errors in reading the
  file are outside the model.
- Cell kinds other than `None`, string and float: booleans, integers wider
  than a float, dates and other objects `read_excel` may produce. An integer
  cell is modelled as the float with the same value.
- Header cells that are not strings. The model gives each header as a
  string, so `astype(str)` and `na=False` on the Activity column have
  nothing to do.
- Cells.ParseFloat: follows `float()` on strings, with these differences:
  - it does not accept digit-group underscores (`1_000`) or non-ASCII
    digits;
  - it keeps exact real values, not IEEE doubles. In Python, a numeral that
    underflows (`1e-400`) reads as zero and one that overflows (`1e400`)
    reads as infinity. The model keeps their exact values.
- Cells.ToNumeric: defined as the number `float()` gives, or NaN. It uses
  the same text grammar as `float()`. pandas' own
  parser differs in corner cases, such as surrounding whitespace and some
  spellings of infinity.
- Filters.ContainsIgnoringCase: `str.contains` takes a regular expression.
  Only the literal pattern `Balance` is modelled, and its letters have no
  non-ASCII case variants. So lower-casing ASCII letters is enough.
