# tables: row filters and column selection, in Dafny

This project models the core of two commands of the `tables` tool, which
works on delimited text tables:

- `rows` keeps the rows that fulfil at least one comparative expression
  such as `Cost > 50`, `name == "test name"` or `cost<id`, or with
  `--invert` the rows that fulfil none.  Each expression is parsed once
  against the header into an `expression` value: two column indices, an
  operator and an optional literal.  The expressions are tried in order and
  the first one that holds selects the row.  For every row, each cell is typed at
  run time: it is a number when its first rune is a digit, `-` or `.` and
  the whole cell parses as a float, and its text otherwise.  Two values of
  the same type compare by their own order.  A string is "smaller" and a
  number "greater" than anything of another type.
- `cols` chooses, reorders and adds columns by header name, or with
  `--invert` deletes them.  It turns the header and the names into a list
  of column positions (-1 for a new, empty column), then builds every output
  row from those positions.

Files:

- `wrappers.dfy` holds `Option` and `Result`.
- `runes.dfy` holds Go's `unicode.IsSpace` (exact), ASCII `IsDigit`, and
  `Find`, the scan for the first rune of a class.
- `strconv.dfy` models `strconv.ParseFloat` on decimal text.
- `rows.dfy` models `rows.go`:
  - a `RuneReader` class that stands for the `strings.Reader` the parser
    consumes;
  - the imperative parser, one method per loop of `parseExpression`, proved
    equal to the position-based reference function `Parse`;
  - `getFieldValue`, `compare`, and the selection loop of `rowsFn`.
- `rows_properties.dfy` holds the lemmas about the expression language:
  - token boundaries and io.EOF;
  - the comparison order;
  - selection over a table.
- `cols.dfy` models `cols.go`.  `selectColumns`, `deleteColumns` and
  `colsFn` are methods with the source's nested loops, breaks and arrays.
  They are proved against the reference functions `Lookup`, `Kept` and
  `Project`, together with lemmas about those functions.
- `samples.dfy` states the repository's test cases as facts about the model.

Wherever the source reads a record from the CSV reader, the model takes the
header or the row as a parameter.

## Model

| member | source | states |
|---|---|---|
| Rows.OperatorOf | rows.go:325-341 | the operator switch: the six spellings map to their constants and any other accumulated text, the empty one included, to no operator (the unknown-operand error); stated by `RowsProperties.OperatorTexts` |
| Rows.OpText | rows.go:262-269 | each operator constant has a spelling that the operator switch maps back to that constant |
| Rows.LastIndex | rows.go:408-415 | the header loop keeps the last match: the result names `name` and no later entry does; -1 exactly when the header lacks the name |
| Rows.Resolve | rows.go:403-419 | resolution fails exactly when the left name is not in the header; with the unknown-column error; on success the left index is the last match of the left name, the right index the last match of the right name (or -1), and the operator and the literal are passed through |
| Rows.RightOperand | rows.go:343-402 | the right operand gives a literal exactly when the right column name is empty; it fails only on text starting like a number that ParseFloat rejects |
| Rows.ScanName | rows.go:276-295 | the column name is a prefix of the text holding no space and no operator rune, and the operator's position lies past it and inside the text; that the name ends at the first space or operator rune, that spaces after it are skipped and that io.EOF comes when the text ends first is stated by `Rows.NameToEnd`, `Rows.NameBefore`, `Rows.NameBeforeSpace` and `RowsProperties.ScanNameShape` |
| Rows.ScanOperator | rows.go:297-324 | the operator text is the slice of the text at its start holding only operator runes, and the right operand's position lies past it and inside the text; that it takes every operator rune in a row, that spaces after it are skipped and that io.EOF comes when the text ends first is stated by `Rows.OperatorToEnd`, `Rows.OperatorBefore`, `Rows.OperatorBeforeSpace` and `RowsProperties.ScanOperatorShape` |
| Rows.Parse | rows.go:273-420 | a parsed expression has a left index inside the header and a right index in -1..len(header)-1; a literal comes with the right index of the empty name |
| Rows.RuneReader.ReadRune | rows.go:278-280 | the strings.Reader call: the rune at the position, the position advanced past it and remembered for one unread, or io.EOF at the end with nothing to unread |
| Rows.RuneReader.UnreadRune | rows.go:288-291 | the strings.Reader call: steps back over the rune just read, after which no second unread is possible |
| Rows.SkipExpressionSpaces | rows.go:248-259 | leaves the reader on the first non-space rune, or reports io.EOF with the reader at the end |
| Rows.ReadToSpace | rows.go:369-381 | the number loop, and the identical column-name loop at rows.go:388-400, accumulate the runes from the first one up to the next space or the end, and leave the reader past that space |
| Rows.ReadColumnName | rows.go:276-295 | the column-name loop yields what `ScanName` specifies: io.EOF when the text ends first, otherwise the name and the operator's position |
| Rows.ReadOperator | rows.go:297-324 | the operator loop yields what `ScanOperator` specifies: every operator rune in a row, and the right operand's position, or io.EOF |
| Rows.ReadQuoted | rows.go:351-366 | the quoted-string loop accumulates the runes up to the closing quote, or to the end of the text when the quote is not closed, and leaves the reader past the closing quote |
| Rows.ReadRightOperand | rows.go:343-402 | reading the right operand gives what `RightOperand` specifies, with the reader past the closing quote or the space that ends the operand, or at the end |
| Rows.ResolveColumns | rows.go:408-415 | the header loop sets each index to the last match of its name, or leaves -1 |
| Rows.ParseExpression | rows.go:273-420 | parseExpression returns exactly `Parse(header, text)`, errors included |
| Rows.GetFieldValue | rows.go:423-433 | a cell is a number exactly when its first rune starts a number and ParseFloat accepts the whole cell; then it is that number, otherwise the cell's text |
| Rows.Compare | rows.go:183-246 | compare: same-typed values by their own order, a string against another type true only for != and <, a number only for != and >; stated by `SameTypeCompare`, which fixes < as the order of the reals or Go's string order, and by `MixedTypeCompare` |
| Rows.StrLess | rows.go:196-206 | Go's `<` on strings, taken rune by rune, which agrees with Go's byte order on valid UTF-8; `StrLessIrreflexive`, `StrLessTransitive` and `StrLessTrichotomy` state that it is a strict total order |
| Rows.Holds | rows.go:154-162 | one expression on one row: the left cell against the right cell when a right column was resolved, otherwise against the literal; stated by `UnresolvedRightColumn` and `EmptyNameShadowsLiteral` |
| Rows.Evaluable | rows.go:152-166 | the rows rowsFn evaluates without reading an empty cell: each expression tried, up to the first that holds, has its cells inside the row and not empty |
| Rows.Selected | rows.go:152-166 | the short-circuit or of the expressions; `FitsAllEvaluable` and `SelectedIsSomeHolds` relate it to "some expression holds" |
| Rows.RowsFn | rows.go:147-171 | on any row it can evaluate, the row is returned exactly when the or of the expressions differs from `invert`, otherwise the empty row |
| Rows.Passing | rows.go:126-141 | the rows the `rows` command writes, in input order; never more than the input |
| Rows.PassingKeeps | rows.go:126-141 | the rows written are exactly the input rows for which rowsFn returns the row |
| RowsProperties.OperatorTexts | rows.go:325-341 | the accepted operator texts are exactly the six spellings, and each reads back to its own spelling |
| RowsProperties.ParseOfTokens | rows.go:273-420 | a name, optional spaces, an operator run, optional spaces and a right-hand token parse to what the tokens mean, whatever follows the token; unterminated quotes are accepted |
| RowsProperties.MissingRightOperand | rows.go:276-308 | a text that ends before the right operand fails with io.EOF |
| RowsProperties.EmptyNameShadowsLiteral | rows.go:155-163 | with an empty name in the header, a literal expression also gets a right column, and that cell replaces the literal |
| RowsProperties.StrLessIrreflexive | rows.go:196-206 | no string is below itself in Go's string order |
| RowsProperties.StrLessTransitive | rows.go:196-206 | Go's string order is transitive |
| RowsProperties.StrLessTrichotomy | rows.go:196-206 | any two strings are equal or ordered exactly one way |
| RowsProperties.SameTypeCompare | rows.go:196-244 | for two strings or two numbers exactly one of <, ==, > holds; >= is > or ==, <= is < or ==, != negates ==, and < reads backwards as >; < is the order of the reals for numbers and `StrLess` for strings |
| RowsProperties.SameTypeLessTransitive | rows.go:196-244 | for same-typed values < is transitive |
| RowsProperties.MixedTypeCompare | rows.go:185-225 | a string against a non-string is true only for != and <; a number against a non-number only for != and > |
| RowsProperties.UnresolvedRightColumn | rows.go:158-163 | an unresolved right column without a literal compares as a type mismatch |
| RowsProperties.FitsAllEvaluable | rows.go:152-166 | when every cell of every expression is present the row can be evaluated, and it is selected exactly when some expression holds |
| RowsProperties.SelectedIsSomeHolds | rows.go:152-166 | on a row that can be evaluated, it is selected exactly when some expression has its cells and holds; a row not selected had all of its expressions evaluated |
| RowsProperties.SelectedAppend | rows.go:152-166 | the expressions are or-ed with short-circuit: a longer list can be evaluated exactly when the first part selects the row or the second part can be evaluated, and then selects the rows either part selects |
| RowsProperties.InvertPartitions | rows.go:167-170 | with and without `invert`, every input row is written in exactly one of the two runs |
| RowsProperties.PipeIsAnd | rows.go:126-141 | piping one `rows` run into another writes the rows both expression lists select, needing the second list to be evaluable only on the rows the first run writes |
| Strconv.ParseFloat | rows.go:425-429 | strconv.ParseFloat on decimal text: an optional sign, digits with an optional fraction (at least one digit in all) and an optional exponent, covering the whole text; `ParseFloatDigits` states its value on digit strings |
| Strconv.ParseFloatDigits | rows.go:425-429 | a cell of decimal digits parses to its natural value |
| Cols.FirstIndex | cols.go:171-178 | the inner lookup loop stops at the first match: the result names `name` and no earlier entry does; -1 exactly when the header lacks it |
| Cols.SelectColumns | cols.go:152-181 | with no names, every column in header order; otherwise the names themselves and, for each, its first position in the header or -1 |
| Cols.DeleteColumns | cols.go:185-212 | with no names, nothing; otherwise the positions whose name is not requested, in order, with their names |
| Cols.ColsFn | cols.go:133-146 | each output cell is the input cell at its position, or empty for a new column |
| Cols.LookupFindsNames | cols.go:168-180 | each requested name maps to its first header position, and to -1 exactly when the header lacks it |
| Cols.ProjectAllColumns | cols.go:158-164 | with no names requested, every row is copied unchanged |
| Cols.SelectedHeaderRow | cols.go:138-145 | colsFn on a row equal to the header gives back each requested name the header holds, and an empty cell for a new name; the header line written is the names themselves (cols.go:109-113) |
| Cols.NarrowSelection | cols.go:138-180 | choosing names from an earlier choice equals choosing them from the original, when every name of the second choice that the header holds was also in the first choice |
| Cols.KeptIsFilter | cols.go:197-211 | the kept positions are in bounds, strictly increasing, and exactly those whose name is not requested |
| Cols.DeletedNames | cols.go:197-211 | the names kept are exactly the header names not requested |
| Cols.DeleteIsSelectOfRest | cols.go:152-212 | on a header without repeated names, looking the kept names up again gives the kept positions, so every row projects the same way through both; these are the positions of `cols` with the remaining names only when some name is given and some column remains |
| Samples.GreaterExample | rows_test.go:17-23 | the text `cost > 50` parses against the test header to column 0, `>`, the number 50 |
| Samples.LessEqualExample | rows_test.go:25-27 | the text `cost<=50` parses against the test header to column 0, `<=`, the number 50 |
| Samples.LessColumnExample | rows_test.go:29-35 | the text `cost<id` parses against the test header to columns 0 and 2 with `<` |
| Samples.GreatEqualColumnExample | rows_test.go:37-39 | the text `cost>=id` parses against the test header to columns 0 and 2 with `>=` |
| Samples.EqualStringExample | rows_test.go:41-47 | the text `name == "test name"` parses against the test header to column 3, `==`, the string |
| Samples.DiffStringExample | rows_test.go:49-55 | the text `id!="xABF01"` parses against the test header to column 2, `!=`, the string |
| Samples.UnknownOperandExample | rows.go:339-340 | the text `cost => 50` fails with the unknown operand `=>` |
| Samples.UnknownColumnExample | rows.go:416-418 | the text `price > 50` fails with the unknown-column error, as its left name is not in the header |
| Samples.ParseCostOver50 | rows_test.go:154-161 | the whole text `Cost > 50` parses against the sample header to column 2, `>`, 50 |
| Samples.ParseMissingOperand | rows.go:297-302 | `cost >` fails with io.EOF |
| Samples.CompareExamples | rows_test.go:93-144 | every comparison of the compare test has the expected outcome |
| Samples.CostRow | rows.go:152-166 | a row whose Cost cell holds digits is selected by `Cost > 50` exactly when that number exceeds 50 |
| Samples.SelectCostOver50 | rows_test.go:146-179 | `Cost > 50` keeps exactly items 3, 6 and 7 of the sample table, in order |
| Samples.SelectCostUpTo50 | rows.go:167-170 | inverted, `Cost > 50` keeps exactly items 1, 2, 4 and 5, in order |
| Samples.ShortCircuitExample | rows.go:164-165 | `Cost > 50` or `Description == "x"` selects a row whose description is empty: the second expression is never evaluated |
| Samples.SelectSomeColumns | cols_test.go:25-44 | choosing Item, Cost, Amount gives positions 0, 2, 1 |
| Samples.SelectedCells | cols_test.go:46-69 | and writes the expected cells of the first three rows |
| Samples.AddColumn | cols_test.go:72-91 | adding Total gives position -1 |
| Samples.AddedCells | cols_test.go:92-115 | and the expected cells of the first three rows, with the new column empty in every row of the table |
| Samples.DeleteSomeColumns | cols_test.go:118-167 | deleting Item, Cost, Amount keeps Value and Description, positions 3 and 4, and their cells |

## Left out

- Reading and writing CSV, opening files, flags and usage text (`rowsRun`, `colsRun`, `main.go`) are I/O.  The header and each row are parameters.  `rowsRun` skips the empty row rowsFn returns for a row it drops; `Passing` models this by keeping the rows rowsFn returns.  The two differ only on an empty input row (kept by `Passing` with no expressions and `invert` set), which encoding/csv never yields.  `colsRun` stopping when there are no positions is not modelled.
- `stats.go` and the `stats` command are not part of this model.
- The package-level `invert` flag that `rowsFn` reads is passed to `RowsFn` as a parameter.
- `strings.TrimSpace`, applied by the caller before parsing, is left to the caller.
- The `strings.Reader` that the caller creates is built inside `ParseExpression` from the text.  Reader errors other than io.EOF cannot occur on an in-memory string, so they are not modelled.
- Rows.ReadRightOperand: requires an unread rune.  The io.EOF check at rows.go:346-348 cannot fire, because both earlier loops stop on a rune they leave unread, so `ParseExpression` always meets this precondition.
- Rows.RowsFn: the `val1 == nil` branch is dead code, because `getFieldValue` never returns nil, so it is not modelled.  The `default: return false` branches of `compare` are dead code as well.
- Rows.GetFieldValue: requires a non-empty cell, because the source indexes the first rune and panics on an empty cell.  `Evaluable` carries this requirement up to `RowsFn`, for the expressions rowsFn actually evaluates.  Every cell an evaluated expression names must also lie inside the row: rows have the header's width, which encoding/csv enforces, since a record of another width comes back from the reader as an error before rowsFn indexes it.
- Cols.ColsFn: requires every position to lie inside the row.  Rows have the header's width, which encoding/csv enforces: a record of another width comes back from the reader as an error, which colsFn returns before indexing.
- Rows.RightOperand: `unicode.IsDigit` is modelled for the ASCII digits only.  A right operand starting with another Unicode decimal digit, such as `٣`, is a number that fails to parse in the source (a ParseFloat error) but a right column name in the model.  Rows.GetFieldValue: such a cell is a string in both.
- Strconv.ParseFloat models decimal text as an exact real.  Some forms Go accepts are not modelled: `inf`, `infinity`, `nan`, hexadecimal floats and underscores.  Cells such as `-inf` or `0x1p-2` are therefore strings in the model but numbers in Go.  Rounding to float64, and the range error on overflow, are not modelled either.
- Strings are sequences of runes.  Invalid UTF-8, which Go reads as U+FFFD, is not modelled.
- Rows.Passing: its own contract bounds only the length.  What it keeps is stated by `Rows.PassingKeeps`.

Behaviour of the code that a reader may not expect:

- Resolving a name in an expression keeps the LAST matching header entry, because the loop at rows.go:408-415 does not stop.  `cols` uses the first match.
- The operator is every operator rune in a row, not a longest match.  So `=>`, `=!` or `>>` are unknown operands, and `=` alone is as well.
- A string against a number is true only for `!=` and `<`, and a number against a string only for `!=` and `>`.  `<=` and `>=` are false across types.
- An unresolved right column name is not an error.  The right operand is then missing, so `!=` always holds, and `<` or `>` holds depending on the type of the left cell.
- The expressions stop at the first one that holds, so the cells of later expressions are not read.  A row with an empty cell is written when an earlier expression selects it; when an expression that reads the empty cell is reached, the tool panics.
- A literal right operand leaves the right column name empty.  A header holding an empty name therefore gives the expression a right column, whose cell replaces the literal.
