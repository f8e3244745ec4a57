/**
 * Concrete inputs and what the transform does with them: a wide row with two
 * activity columns, its long rows, and what the post-filter keeps.
 */
module Scenarios {
  import opened Wrappers
  import opened Sequences
  import opened Cells
  import opened Transpose
  import opened Filters
  import opened Pipeline

  /** Eleven identity column names and eleven identity values. */
  const IdentityNames: seq<string> :=
    ["Journal", "Date", "Entity", "Account", "Name", "Type", "Class", "Group", "Region", "Currency", "Period"]
  const Identity: seq<Cell> :=
    [Text("J-17"), Text("2024-03-31"), Text("E1"), Text("4000"), Text("Office"), Text("Expense"),
     Text("Opex"), Text("G2"), Text("North"), Text("EUR"), Num(Finite(3.0))]

  function Headers(first: string, second: string): seq<string> {
    IdentityNames + [first, second]
  }

  function Row(first: Cell, second: Cell): seq<Cell> {
    Identity + [first, second]
  }

  /** The pairs of a row with two activity columns. */
  lemma TwoColumnPairs(first: string, second: string, a: Cell, b: Cell)
    ensures ActivityPairs(Row(a, b), Headers(first, second)) == [(first, a), (second, b)]
    ensures FixedValues(Row(a, b)) == Identity
  {
    var pairs := ActivityPairs(Row(a, b), Headers(first, second));
    assert |pairs| == 2;
    assert pairs[0] == (first, a) && pairs[1] == (second, b);
  }

  /** Transposing a row with two activity columns, in terms of which of the two values are emitted. */
  lemma TwoColumnTransposed(first: string, second: string, a: Cell, b: Cell)
    ensures Transposed(Row(a, b), Headers(first, second)) ==
      (if Emits(a) then [LongRow(Identity, first, a)] else [])
      + (if Emits(b) then [LongRow(Identity, second, b)] else [])
  {
    TwoColumnPairs(first, second, a, b);
    var pairs := [(first, a), (second, b)];
    assert pairs == [(first, a)] + [(second, b)];
    FilterAppend([(first, a)], [(second, b)], EmitsPair);
    AttachAppend(Identity, Filter([(first, a)], EmitsPair), Filter([(second, b)], EmitsPair));
    OneColumn(first, a);
    OneColumn(second, b);
  }

  lemma OneColumn(header: string, value: Cell)
    ensures Attach(Identity, Filter([(header, value)], EmitsPair)) ==
      if Emits(value) then [LongRow(Identity, header, value)] else []
  {
    assert [(header, value)][1..] == [];
  }

  /** A cell holding `-` is a missing marker. */
  lemma DashIsMissing()
    ensures IsMissing(Text("-"))
  {
    assert LeadingSpaces("-", IsSpace) == 0;
    assert TrailingSpaces("-", IsSpace) == 0;
  }

  /** `abc` is not a number. */
  lemma LettersDoNotParse()
    ensures ParseFloat("abc") == None
  {
    var s := "abc";
    assert LeadingSpaces(s, IsFloatSpace) == 0 && TrailingSpaces(s, IsFloatSpace) == 0;
    assert Strip(s, IsFloatSpace) == s;
    assert LowerAll(s) == s;
    assert DigitRun(s, 0) == 0;
  }

  /**
   * A leading U+001C is whitespace to `str.strip()` but not to `float()`: the
   * value `\x1c5` is not a missing marker, yet `float()` rejects it, so
   * `transpose_row` skips it.
   */
  lemma SeparatorIsNotIgnored()
    ensures Strip("\U{1C}5", IsSpace) == "5"
    ensures ParseFloat("\U{1C}5") == None
    ensures !IsMissing(Text("\U{1C}5")) && !Emits(Text("\U{1C}5"))
  {
    var s := "\U{1C}5";
    assert LeadingSpaces(s[1..], IsSpace) == 0;
    assert LeadingSpaces(s, IsSpace) == 1 && TrailingSpaces(s[1..], IsSpace) == 0;
    assert LeadingSpaces(s, IsFloatSpace) == 0 && TrailingSpaces(s, IsFloatSpace) == 0;
    assert Strip(s, IsFloatSpace) == s;
    assert SplitSign(s) == (false, s);
    assert LowerAll(s)[0] == s[0];
    assert DigitRun(s, 0) == 0;
  }

  /** `0.00` is a numeral, and all its digits are `0`, so it parses to zero. */
  lemma ZeroTextParsesToZero()
    ensures ParseFloat("0.00") == Some(Zero)
  {
    var s := "0.00";
    assert LeadingSpaces(s, IsFloatSpace) == 0 && TrailingSpaces(s, IsFloatSpace) == 0;
    assert Strip(s, IsFloatSpace) == s;
    assert SplitSign(s) == (false, s);
    assert DigitRun(s, 0) == 1 by {
      assert DigitRun(s, 1) == 0;
    }
    assert DigitRun(s, 2) == 2 by {
      assert DigitRun(s, 4) == 0;
      assert DigitRun(s, 3) == 1;
    }
    assert s[4..] == [];
    assert ParseDecimal(s).Some?;
    assert ZeroMantissa(s);
    ParseFloatIsZero(s);
  }

  /** The decimal part of `12.5`. */
  lemma DecimalBodyParses()
    ensures ParseDecimal("12.5") == Some(12.5)
  {
    var s := "12.5";
    assert DigitRun(s, 0) == 2 by {
      assert DigitRun(s, 2) == 0;
      assert DigitRun(s, 1) == 1;
    }
    assert DigitRun(s, 3) == 1 by {
      assert DigitRun(s, 4) == 0;
    }
    assert s[4..] == [];
    assert s[..2] + s[3..4] == "125";
    assert DigitsValue("125") == 125 by {
      assert "125"[..2] == "12" && "12"[..1] == "1" && "1"[..0] == [];
    }
    assert Scale(125, -1) == 12.5 by {
      assert Scale(125, 0) == 125.0;
    }
  }

  /** `12.5` parses to twelve and a half. */
  lemma DecimalTextParses()
    ensures ParseFloat("12.5") == Some(Finite(12.5))
  {
    var s := "12.5";
    assert LeadingSpaces(s, IsFloatSpace) == 0 && TrailingSpaces(s, IsFloatSpace) == 0;
    assert Strip(s, IsFloatSpace) == s;
    assert SplitSign(s) == (false, s);
    assert |LowerAll(s)| == 4;
    DecimalBodyParses();
  }

  /** When only the second value passes the guards, the row yields one long row, for the second column. */
  lemma OnlySecondEmits(first: string, second: string, a: Cell, b: Cell)
    requires !Emits(a) && Emits(b)
    ensures Transposed(Row(a, b), Headers(first, second)) == [LongRow(Identity, second, b)]
  {
    TwoColumnTransposed(first, second, a, b);
  }

  /** Rent is `-` and Utilities is 500: one long row, for Utilities. */
  lemma DashIsSkipped()
    ensures Transposed(Row(Text("-"), Num(Finite(500.0))), Headers("Rent", "Utilities"))
      == [LongRow(Identity, "Utilities", Num(Finite(500.0)))]
  {
    DashIsMissing();
    assert Emits(Num(Finite(500.0))) by {
      EmitsIff(Num(Finite(500.0)));
    }
    OnlySecondEmits("Rent", "Utilities", Text("-"), Num(Finite(500.0)));
  }

  /** Rent is the number 0 and Utilities the text `0.00`: no long row. */
  lemma ZerosAreSkipped()
    ensures Transposed(Row(Num(Zero), Text("0.00")), Headers("Rent", "Utilities")) == []
  {
    assert !Emits(Text("0.00")) by {
      ZeroTextParsesToZero();
      EmitsIff(Text("0.00"));
    }
    assert !Emits(Num(Zero)) by {
      EmitsIff(Num(Zero));
    }
    TwoColumnTransposed("Rent", "Utilities", Num(Zero), Text("0.00"));
  }

  /** A value that is not a number, such as `abc`, is skipped rather than kept. */
  lemma TextIsSkipped()
    ensures Transposed(Row(Text("abc"), Num(Finite(20.0))), Headers("Rent", "Utilities"))
      == [LongRow(Identity, "Utilities", Num(Finite(20.0)))]
  {
    assert !Emits(Text("abc")) by {
      LettersDoNotParse();
      EmitsIff(Text("abc"));
    }
    assert Emits(Num(Finite(20.0))) by {
      EmitsIff(Num(Finite(20.0)));
    }
    OnlySecondEmits("Rent", "Utilities", Text("abc"), Num(Finite(20.0)));
  }

  /** An Activity named `Balance` survives the transposition... */
  lemma BalanceIsTransposed()
    ensures Transposed(Row(Num(Finite(1000.0)), Missing), Headers("Balance", "Fees"))
      == [LongRow(Identity, "Balance", Num(Finite(1000.0)))]
  {
    assert Emits(Num(Finite(1000.0))) && !Emits(Missing) by {
      EmitsIff(Num(Finite(1000.0)));
      EmitsIff(Missing);
    }
    TwoColumnTransposed("Balance", "Fees", Num(Finite(1000.0)), Missing);
  }

  /** ...but not the post-filter. */
  lemma BalanceIsFilteredOut()
    ensures PostFilter([LongRow(Identity, "Balance", Num(Finite(1000.0)))]) == Report([], 1, 0)
  {
    var r := LongRow(Identity, "Balance", Num(Finite(1000.0)));
    BalanceLabelIsMention(r);
    PostFilterIsOneFilter([r]);
  }

  /** An Activity that only contains `Balance`, such as `Opening BALANCE`, is filtered out too. */
  lemma MentionIsFilteredOut()
    ensures PostFilter([LongRow(Identity, "Opening BALANCE", Num(Finite(250.0)))]) == Report([], 1, 0)
  {
    var r := LongRow(Identity, "Opening BALANCE", Num(Finite(250.0)));
    assert OccursAt(r.activity, BalanceLabel, 8);
    ContainsIgnoringCaseIff(r.activity, BalanceLabel);
    PostFilterIsOneFilter([r]);
  }

  /** A surviving text Amount is replaced by its numeric value. */
  lemma AmountIsCoerced()
    ensures PostFilter([LongRow(Identity, "Rent", Text("12.5"))]).rows
      == [LongRow(Identity, "Rent", Num(Finite(12.5)))]
  {
    var r := LongRow(Identity, "Rent", Text("12.5"));
    DecimalTextParses();
    assert !ContainsIgnoringCase("Rent", BalanceLabel) by {
      ContainsIgnoringCaseIff("Rent", BalanceLabel);
    }
    PostFilterIsOneFilter([r]);
  }

  /** A table of one row is that row's long rows. */
  lemma OneRowTable(row: seq<Cell>, headers: seq<string>)
    ensures LongTable([row], headers) == Transposed(row, headers)
  {
    LongTableSnoc([row], 0, headers);
    assert [row][..1] == [row] && [row][..0] == [];
  }

  /** Identity headers with `Amount` in fourth place, then the activity headers Rent and Fees. */
  const ClashingHeaders: seq<string> := IdentityNames[3 := "Amount"] + ["Rent", "Fees"]

  lemma ClashingTableIsNotEmpty()
    ensures LongTable([Row(Num(Finite(500.0)), Missing)], ClashingHeaders) != []
  {
    var row := Row(Num(Finite(500.0)), Missing);
    assert ActivityPart(ClashingHeaders) == ActivityPart(Headers("Rent", "Fees"));
    assert Emits(Num(Finite(500.0))) && !Emits(Missing);
    TwoColumnTransposed("Rent", "Fees", Num(Finite(500.0)), Missing);
    OneRowTable(row, ClashingHeaders);
  }

  /** An identity header named `Amount` clashes with the new Amount column: the transform fails. */
  lemma AmountHeaderFails()
    ensures Transform([Row(Num(Finite(500.0)), Missing)], ClashingHeaders) == Failed
  {
    ClashingTableIsNotEmpty();
    assert NameClash(ClashingHeaders) by {
      assert ClashingHeaders[3] == "Amount";
    }
  }
}
