/** The examples the repository's own tests use, as facts about the model:
    the parsed expressions, the comparisons, and the rows and columns taken
    from the sample table of items. */
module Samples {
  import opened Wrappers
  import opened Runes
  import opened Strconv
  import opened Rows
  import opened RowsProperties
  import opened Cols

  /** The header the parser examples resolve against. */
  const TestHeader: seq<string> := ["cost", "number", "id", "name"]

  /** The sample table: a header and seven rows. */
  const ItemsHeader: seq<string> := ["Item", "Amount", "Cost", "Value", "Description"]
  const ItemRows: seq<seq<string>> := [
    ["1", "3", "50", "150", "rubber gloves"],
    ["2", "100", "5", "500", "test tubes"],
    ["3", "5", "80", "400", "clamps"],
    ["4", "23", "19", "437", "plates"],
    ["5", "99", "24", "2376", "cleaning cloth"],
    ["6", "89", "147", "13083", "bunsen burners"],
    ["7", "5", "175", "875", "scales"]
  ]

  /** A cell holding only digits is read as its number. */
  lemma DigitCell(d: string)
    requires |d| > 0 && forall k :: 0 <= k < |d| ==> IsDigit(d[k])
    ensures GetFieldValue(d) == Num(DigitsValue(d) as real)
  {
    ParseFloatDigits(d);
  }

  /** The last position of a name, found from the name's position and what
      follows it. */
  lemma LastIndexAt(header: seq<string>, name: string, i: nat)
    requires i < |header| && header[i] == name && name !in header[i + 1..]
    ensures LastIndex(header, name) == i
  {
  }

  lemma Fifty()
    ensures ParseFloat("50") == Some(50.0)
  {
    ParseFloatDigits("50");
  }

  // ---------------------------------------------------------------------
  // Parsing
  // ---------------------------------------------------------------------

  /** The parser examples of the repository's tests, each split into its
      tokens, resolved against the header, and read back from its text. */

  lemma GreaterTokens()
    ensures NameToken("cost") && Spaces(" ") && OpRun(">") && Spaces(" ") && WellFormedRight(Number("50"), [])
  {
  }

  lemma GreaterSpelling()
    ensures "cost > 50" == "cost" + " " + ">" + " " + RightText(Number("50")) + []
  {
  }

  lemma GreaterResolves()
    ensures ParseTokens(TestHeader, "cost", ">", Number("50")) == Success(Expression(0, -1, Great, Some(Num(50.0))))
  {
    LastIndexAt(TestHeader, "cost", 0);
    assert "" !in TestHeader;
    Fifty();
  }

  /** `cost > 50` */
  lemma GreaterExample()
    ensures Parse(TestHeader, "cost > 50") == Success(Expression(0, -1, Great, Some(Num(50.0))))
  {
    GreaterTokens();
    GreaterSpelling();
    GreaterResolves();
    ParseOfTokens(TestHeader, "cost", " ", ">", " ", Number("50"), []);
  }

  lemma LessEqualTokens()
    ensures NameToken("cost") && Spaces("") && OpRun("<=") && Spaces("") && WellFormedRight(Number("50"), [])
  {
  }

  lemma LessEqualSpelling()
    ensures "cost<=50" == "cost" + "" + "<=" + "" + RightText(Number("50")) + []
  {
  }

  lemma LessEqualResolves()
    ensures ParseTokens(TestHeader, "cost", "<=", Number("50")) == Success(Expression(0, -1, LessEqual, Some(Num(50.0))))
  {
    LastIndexAt(TestHeader, "cost", 0);
    assert "" !in TestHeader;
    Fifty();
  }

  /** `cost<=50` */
  lemma LessEqualExample()
    ensures Parse(TestHeader, "cost<=50") == Success(Expression(0, -1, LessEqual, Some(Num(50.0))))
  {
    LessEqualTokens();
    LessEqualSpelling();
    LessEqualResolves();
    ParseOfTokens(TestHeader, "cost", "", "<=", "", Number("50"), []);
  }

  lemma LessColumnTokens()
    ensures NameToken("cost") && Spaces("") && OpRun("<") && Spaces("") && WellFormedRight(Column("id"), [])
  {
  }

  lemma LessColumnSpelling()
    ensures "cost<id" == "cost" + "" + "<" + "" + RightText(Column("id")) + []
  {
  }

  lemma LessColumnResolves()
    ensures ParseTokens(TestHeader, "cost", "<", Column("id")) == Success(Expression(0, 2, Less, None))
  {
    LastIndexAt(TestHeader, "cost", 0);
    LastIndexAt(TestHeader, "id", 2);
  }

  /** `cost<id` */
  lemma LessColumnExample()
    ensures Parse(TestHeader, "cost<id") == Success(Expression(0, 2, Less, None))
  {
    LessColumnTokens();
    LessColumnSpelling();
    LessColumnResolves();
    ParseOfTokens(TestHeader, "cost", "", "<", "", Column("id"), []);
  }

  lemma GreatEqualColumnTokens()
    ensures NameToken("cost") && Spaces("") && OpRun(">=") && Spaces("") && WellFormedRight(Column("id"), [])
  {
  }

  lemma GreatEqualColumnSpelling()
    ensures "cost>=id" == "cost" + "" + ">=" + "" + RightText(Column("id")) + []
  {
  }

  lemma GreatEqualColumnResolves()
    ensures ParseTokens(TestHeader, "cost", ">=", Column("id")) == Success(Expression(0, 2, GreatEqual, None))
  {
    LastIndexAt(TestHeader, "cost", 0);
    LastIndexAt(TestHeader, "id", 2);
  }

  /** `cost>=id` */
  lemma GreatEqualColumnExample()
    ensures Parse(TestHeader, "cost>=id") == Success(Expression(0, 2, GreatEqual, None))
  {
    GreatEqualColumnTokens();
    GreatEqualColumnSpelling();
    GreatEqualColumnResolves();
    ParseOfTokens(TestHeader, "cost", "", ">=", "", Column("id"), []);
  }

  lemma EqualStringTokens()
    ensures NameToken("name") && Spaces(" ") && OpRun("==") && Spaces(" ") && WellFormedRight(Quoted("test name", true), [])
  {
  }

  lemma EqualStringSpelling()
    ensures "name == \"test name\"" == "name" + " " + "==" + " " + RightText(Quoted("test name", true)) + []
  {
  }

  lemma EqualStringResolves()
    ensures ParseTokens(TestHeader, "name", "==", Quoted("test name", true)) == Success(Expression(3, -1, Equal, Some(Str("test name"))))
  {
    LastIndexAt(TestHeader, "name", 3);
    assert "" !in TestHeader;
  }

  /** `name == "test name"` */
  lemma EqualStringExample()
    ensures Parse(TestHeader, "name == \"test name\"") == Success(Expression(3, -1, Equal, Some(Str("test name"))))
  {
    EqualStringTokens();
    EqualStringSpelling();
    EqualStringResolves();
    ParseOfTokens(TestHeader, "name", " ", "==", " ", Quoted("test name", true), []);
  }

  lemma DiffStringTokens()
    ensures NameToken("id") && Spaces("") && OpRun("!=") && Spaces("") && WellFormedRight(Quoted("xABF01", true), [])
  {
  }

  lemma DiffStringSpelling()
    ensures "id!=\"xABF01\"" == "id" + "" + "!=" + "" + RightText(Quoted("xABF01", true)) + []
  {
  }

  lemma DiffStringResolves()
    ensures ParseTokens(TestHeader, "id", "!=", Quoted("xABF01", true)) == Success(Expression(2, -1, Diff, Some(Str("xABF01"))))
  {
    LastIndexAt(TestHeader, "id", 2);
    assert "" !in TestHeader;
  }

  /** `id!="xABF01"` */
  lemma DiffStringExample()
    ensures Parse(TestHeader, "id!=\"xABF01\"") == Success(Expression(2, -1, Diff, Some(Str("xABF01"))))
  {
    DiffStringTokens();
    DiffStringSpelling();
    DiffStringResolves();
    ParseOfTokens(TestHeader, "id", "", "!=", "", Quoted("xABF01", true), []);
  }

  lemma UnknownOperandTokens()
    ensures NameToken("cost") && Spaces(" ") && OpRun("=>") && Spaces(" ") && WellFormedRight(Number("50"), [])
  {
  }

  lemma UnknownOperandSpelling()
    ensures "cost => 50" == "cost" + " " + "=>" + " " + RightText(Number("50")) + []
  {
  }

  /** `cost => 50` has no such operator ... */
  lemma UnknownOperandExample()
    ensures Parse(TestHeader, "cost => 50") == Failure(UnknownOperand("=>"))
  {
    UnknownOperandTokens();
    UnknownOperandSpelling();
    assert OperatorOf("=>") == None;
    ParseOfTokens(TestHeader, "cost", " ", "=>", " ", Number("50"), []);
  }

  lemma UnknownColumnTokens()
    ensures NameToken("price") && Spaces(" ") && OpRun(">") && Spaces(" ") && WellFormedRight(Number("50"), [])
  {
  }

  lemma UnknownColumnSpelling()
    ensures "price > 50" == "price" + " " + ">" + " " + RightText(Number("50")) + []
  {
  }

  /** ... and `price > 50` no such column. */
  lemma UnknownColumnExample()
    ensures Parse(TestHeader, "price > 50") == Failure(UnknownColumn)
  {
    UnknownColumnTokens();
    UnknownColumnSpelling();
    assert "price" !in TestHeader;
    Fifty();
    ParseOfTokens(TestHeader, "price", " ", ">", " ", Number("50"), []);
  }

  /** The tokens of `Cost > 50` are well formed and spell the text. */
  lemma CostOver50Tokens()
    ensures NameToken("Cost") && Spaces(" ") && OpRun(">") && WellFormedRight(Number("50"), [])
    ensures "Cost > 50" == "Cost" + " " + ">" + " " + RightText(Number("50")) + []
  {
  }

  const CostOver50 := Expression(2, -1, Great, Some(Num(50.0)))

  lemma CostOver50Resolves()
    ensures ParseTokens(ItemsHeader, "Cost", ">", Number("50")) == Success(CostOver50)
  {
    LastIndexAt(ItemsHeader, "Cost", 2);
    assert "" !in ItemsHeader;
    Fifty();
  }

  /** The whole text `Cost > 50` parses to a comparison of the third column
      with the number 50. */
  lemma ParseCostOver50()
    ensures Parse(ItemsHeader, "Cost > 50") == Success(CostOver50)
  {
    CostOver50Tokens();
    CostOver50Resolves();
    ParseOfTokens(ItemsHeader, "Cost", " ", ">", " ", Number("50"), []);
  }

  /** A text that stops after the operator is refused with io.EOF. */
  lemma ParseMissingOperand()
    ensures Parse(TestHeader, "cost >") == Failure(EndOfInput)
  {
    MissingRightOperand(TestHeader, "cost", " ", ">", "");
    assert "cost" + " " + ">" + "" == "cost >";
  }

  // ---------------------------------------------------------------------
  // Comparing
  // ---------------------------------------------------------------------

  lemma CompareExamples()
    ensures Compare(Str("equal"), Some(Str("equal")), Equal)
    ensures !Compare(Str("not-equal"), Some(Str("different")), Equal)
    ensures Compare(Str("not-equal"), Some(Str("different")), Diff)
    ensures !Compare(Str("equal"), Some(Str("equal")), Diff)
    ensures !Compare(Str("first"), Some(Str("second")), Great)
    ensures Compare(Str("first"), Some(Str("second")), Less)
    ensures Compare(Num(50.0), Some(Num(50.0)), Equal)
    ensures !Compare(Num(50.0), Some(Num(100.0)), Equal)
    ensures Compare(Num(50.0), Some(Num(100.0)), Diff)
    ensures !Compare(Num(50.0), Some(Num(50.0)), Diff)
    ensures !Compare(Num(20.0), Some(Num(100.0)), Great)
    ensures Compare(Num(20.0), Some(Num(100.0)), Less)
    ensures !Compare(Str("50"), Some(Num(50.0)), Equal)
    ensures Compare(Str("50"), Some(Num(50.0)), Diff)
    ensures !Compare(Str("50"), Some(Num(50.0)), Great)
    ensures Compare(Str("50"), Some(Num(50.0)), Less)
  {
    assert "not-equal"[0] != "different"[0];
    assert "first"[0] < "second"[0];
  }

  // ---------------------------------------------------------------------
  // Selecting rows of the sample table
  // ---------------------------------------------------------------------

  /** A row whose Cost cell holds digits is selected by `Cost > 50` exactly
      when that number is above 50. */
  lemma CostRow(row: seq<string>)
    requires |row| == 5 && |row[2]| > 0
    requires forall k :: 0 <= k < |row[2]| ==> IsDigit(row[2][k])
    ensures Evaluable([CostOver50], row)
    ensures Selected([CostOver50], row) <==> DigitsValue(row[2]) > 50
  {
    DigitCell(row[2]);
    assert [CostOver50][0] == CostOver50 && [CostOver50][1..] == [];
  }

  lemma CostRowsFit()
    ensures forall row :: row in ItemRows ==> Evaluable([CostOver50], row)
  {
    forall row | row in ItemRows
      ensures Evaluable([CostOver50], row)
    {
      assert |row| == 5 && |row[2]| > 0;
      assert [CostOver50][0] == CostOver50 && [CostOver50][1..] == [];
    }
  }

  /** Items 3, 6 and 7 cost more than 50. */
  lemma CostRowsKept()
    ensures Selected([CostOver50], ItemRows[2])
    ensures Selected([CostOver50], ItemRows[5])
    ensures Selected([CostOver50], ItemRows[6])
  {
    CostRow(ItemRows[2]);
    CostRow(ItemRows[5]);
    CostRow(ItemRows[6]);
  }

  /** Items 1, 2, 4 and 5 do not. */
  lemma CostRowsDropped()
    ensures !Selected([CostOver50], ItemRows[0])
    ensures !Selected([CostOver50], ItemRows[1])
    ensures !Selected([CostOver50], ItemRows[3])
    ensures !Selected([CostOver50], ItemRows[4])
  {
    CostRow(ItemRows[0]);
    CostRow(ItemRows[1]);
    CostRow(ItemRows[3]);
    CostRow(ItemRows[4]);
  }

  /** `Cost > 50` keeps the rows of items 3, 6 and 7. */
  lemma SelectCostOver50()
    ensures forall row :: row in ItemRows ==> Evaluable([CostOver50], row)
    ensures Passing([CostOver50], ItemRows, false) == [ItemRows[2], ItemRows[5], ItemRows[6]]
  {
    CostRowsFit();
    CostRowsKept();
    CostRowsDropped();
    var rows, exps := ItemRows, [CostOver50];
    assert rows[7..] == [];
    assert rows[6..][1..] == rows[7..];
    assert rows[5..][1..] == rows[6..];
    assert rows[4..][1..] == rows[5..];
    assert rows[3..][1..] == rows[4..];
    assert rows[2..][1..] == rows[3..];
    assert rows[1..][1..] == rows[2..];
    assert rows[0..] == rows;
    assert rows[0..][1..] == rows[1..];
    assert Passing(exps, rows[7..], false) == [];
    assert Passing(exps, rows[6..], false) == [rows[6]];
    assert Passing(exps, rows[5..], false) == [rows[5], rows[6]];
    assert Passing(exps, rows[4..], false) == [rows[5], rows[6]];
    assert Passing(exps, rows[3..], false) == [rows[5], rows[6]];
    assert Passing(exps, rows[2..], false) == [rows[2], rows[5], rows[6]];
    assert Passing(exps, rows[1..], false) == [rows[2], rows[5], rows[6]];
  }

  /** Inverted, the last four rows leave items 4 and 5 ... */
  lemma CostUpTo50Tail()
    ensures forall row :: row in ItemRows ==> Evaluable([CostOver50], row)
    ensures Passing([CostOver50], ItemRows[3..], true) == [ItemRows[3], ItemRows[4]]
  {
    CostRowsFit();
    CostRowsKept();
    CostRowsDropped();
    var rows, exps := ItemRows, [CostOver50];
    assert rows[7..] == [];
    assert rows[6..][1..] == rows[7..];
    assert rows[5..][1..] == rows[6..];
    assert rows[4..][1..] == rows[5..];
    assert rows[3..][1..] == rows[4..];
    assert Passing(exps, rows[7..], true) == [];
    assert Passing(exps, rows[6..], true) == [];
    assert Passing(exps, rows[5..], true) == [];
    assert Passing(exps, rows[4..], true) == [rows[4]];
  }

  /** ... the last six leave items 2, 4 and 5 ... */
  lemma CostUpTo50Middle()
    ensures forall row :: row in ItemRows ==> Evaluable([CostOver50], row)
    ensures Passing([CostOver50], ItemRows[1..], true) == [ItemRows[1], ItemRows[3], ItemRows[4]]
  {
    CostUpTo50Tail();
    CostRowsKept();
    CostRowsDropped();
    var rows, exps := ItemRows, [CostOver50];
    assert rows[2..][1..] == rows[3..];
    assert rows[1..][1..] == rows[2..];
    assert Passing(exps, rows[2..], true) == [rows[3], rows[4]];
  }

  /** ... and the whole table items 1, 2, 4 and 5, in order. */
  lemma SelectCostUpTo50()
    ensures forall row :: row in ItemRows ==> Evaluable([CostOver50], row)
    ensures Passing([CostOver50], ItemRows, true) == [ItemRows[0], ItemRows[1], ItemRows[3], ItemRows[4]]
  {
    CostUpTo50Middle();
    CostRow(ItemRows[0]);
    var rows := ItemRows;
    assert rows[0..] == rows;
    assert rows[0..][1..] == rows[1..];
  }

  /** `Cost > 50` or `Description == "x"` on the row of item 3 with its
      description cleared: the first expression holds, so the empty cell of
      the second is never read and the row is written. */
  lemma ShortCircuitExample()
    ensures var exps := [CostOver50, Expression(4, -1, Equal, Some(Str("x")))];
            var row := ["3", "5", "80", "400", ""];
            !FitsAll(exps, row) && Evaluable(exps, row) && Selected(exps, row)
  {
    var exps := [CostOver50, Expression(4, -1, Equal, Some(Str("x")))];
    var row := ["3", "5", "80", "400", ""];
    CostRow(row);
    assert !Fits(exps[1], row);
    assert exps[0] == CostOver50;
  }

  // ---------------------------------------------------------------------
  // Choosing columns of the sample table
  // ---------------------------------------------------------------------

  /** Choosing Item, Cost and Amount ... */
  lemma SelectSomeColumns()
    ensures Lookup(ItemsHeader, ["Item", "Cost", "Amount"]) == [0, 2, 1]
  {
  }

  /** ... writes these cells of the first three rows. */
  lemma SelectedCells()
    ensures Project(ItemRows[0], [0, 2, 1]) == ["1", "50", "3"]
    ensures Project(ItemRows[1], [0, 2, 1]) == ["2", "5", "100"]
    ensures Project(ItemRows[2], [0, 2, 1]) == ["3", "80", "5"]
  {
  }

  /** Choosing a name the table lacks adds a column ... */
  lemma AddColumn()
    ensures Lookup(ItemsHeader, ["Item", "Cost", "Amount", "Total"]) == [0, 2, 1, -1]
  {
  }

  /** ... that is empty in every row. */
  lemma AddedCells()
    ensures Project(ItemRows[0], [0, 2, 1, -1]) == ["1", "50", "3", ""]
    ensures Project(ItemRows[1], [0, 2, 1, -1]) == ["2", "5", "100", ""]
    ensures Project(ItemRows[2], [0, 2, 1, -1]) == ["3", "80", "5", ""]
    ensures forall row :: row in ItemRows ==> Project(row, [0, 2, 1, -1])[3] == ""
  {
  }

  /** Deleting Item, Cost and Amount keeps Value and Description. */
  lemma DeleteSomeColumns()
    ensures Kept(ItemsHeader, ["Item", "Cost", "Amount"], |ItemsHeader|) == [3, 4]
    ensures Project(ItemsHeader, [3, 4]) == ["Value", "Description"]
    ensures Project(ItemRows[0], [3, 4]) == ["150", "rubber gloves"]
    ensures Project(ItemRows[1], [3, 4]) == ["500", "test tubes"]
    ensures Project(ItemRows[2], [3, 4]) == ["400", "clamps"]
    ensures Project(ItemRows[3], [3, 4]) == ["437", "plates"]
  {
  }
}
