# docx2xlsx: a verified model of the form-to-spreadsheet transfer

`docx2xlsx.py` turns a directory of Word documents that were filled in from one
form into a single spreadsheet. In each `.docx` document it finds the table whose
cell (1, 0) reads the form's name label, and then, for each configured section,
copies cells from one table row into the sheet: header labels from the *key*
columns to row 1 (with all whitespace removed), and values from the *val* columns
to the document's own data row (text as is), starting at row 2 and going down one
row per document. Columns are given as small range expressions (`1~3`, `1,+2`,
`3,5,10`, `7`), parsed by `parse_range`.

The model has six modules:

- `Results` (`results.dfy`): `Option` and a failure-compatible `Result`, so that
  `:-` ends a computation at its first error, as a raised exception does.
- `Text` (`text.dfy`): the clean reading of cell text, `"".join(txt.split())`,
  built from `str.split()` (`Split`) and joining (`Concat`), and proved equal to
  the removal of every whitespace character (`RemoveWhitespace`). The characters
  counted as whitespace are those of Python's `str.isspace()`.
- `Integers` (`integers.dfy`): the part of `int(str)` that range expressions need.
- `RangeExpr` (`range_expr.dfy`): `parse_range` as a specification function
  (`RangeOf`), the same algorithm as a method with its loops (`ParseRange`), and one
  lemma per form of expression.
- `Locator` (`locator.dfy`): `get_the_exactly_table`, as the scan `LocateTable`
  proved against the specification `FirstMarked`.
- `Mapping` (`mapping.dfy`): the transfer loop. A run is specified as the sequence
  of `worksheet.write` calls it makes (`TransferWrites`). The imperative
  `Transfer`, with its loops over entries, sections, key columns and value columns,
  is proved to make exactly those writes, in order, to a `Worksheet` object. What
  the sheet then shows is given by `Apply`, and `ApplyShowsLastWrite` proves that
  each cell holds the last text written to it.

A document is modelled by its file name and its tables. A table is a total
function from (row, column) to the cell's text. The configuration is the sequence
of its sections, in the order the configuration object lists them.

The marker label is compared exactly as the source spells it. That is the
four-character string U+00E5 U+00A7 U+201C U+00E5. The label 姓名 is six bytes in
UTF-8 (E5 A7 93 E5 90 8D). The literal is the Windows-1252 reading of only the
first four of them: 0x90 and 0x8D have no Windows-1252 character, and the literal
does not hold them. Cell text decoded from a document can only match if it holds
exactly those four characters once whitespace is removed.

The header flag `title_has_wrote` is tested before the header loop
(docx2xlsx.py:140) and set after the first document (docx2xlsx.py:155-156). That is
evidently meant to let only the first document write the header row. But the flag
is reset to `False` for every directory entry (docx2xlsx.py:119), so every
document writes the header row again (see Findings). `Transfer` and
`TransferWrites` follow the code as written; `TransferWritesOnce` is the run as
intended.

## Model

| member | source | states |
|---|---|---|
| Text.Split | docx2xlsx.py:99 | specification of `txt.split()` with no argument: the maximal runs of non-whitespace characters, in order; its properties are `SplitWords` and `ConcatSplitRemovesWhitespace` |
| Text.SplitWords | docx2xlsx.py:99 | every word of `txt.split()` is non-empty and holds no whitespace |
| Text.ConcatSplitRemovesWhitespace | docx2xlsx.py:99 | joining the words of `split()` with nothing between them is the same as removing every whitespace character |
| Text.CleanText | docx2xlsx.py:97-99 | the clean text of a cell is its text with every whitespace character removed |
| Text.RemoveWhitespaceLeavesNone | docx2xlsx.py:99 | removing the whitespace characters leaves none behind |
| Text.CleanTextHasNoWhitespace | docx2xlsx.py:97-99 | the clean text of a cell holds no whitespace |
| Text.CleanTextIsKeptCharacters | docx2xlsx.py:99 | the clean text is exactly the non-whitespace characters of the text, in their original order |
| Text.CleanTextIdempotent | docx2xlsx.py:99 | cleaning an already clean text changes nothing |
| Text.CleanTextAppend | docx2xlsx.py:99 | cleaning a concatenation is the concatenation of the cleaned parts |
| Integers.ParseInt | docx2xlsx.py:50-51 | specification of `int(token)`: an optional sign followed by ASCII digits, and `None` where Python raises ValueError; what it accepts is stated by `ParseIntOfDecimal`, `ParseIntRejects` and `ParseIntRejectsInnerSign` |
| Integers.ParseIntRejects | docx2xlsx.py:50-51 | `int` fails on a token with a character that is neither a digit nor a sign |
| Integers.ParseIntRejectsInnerSign | docx2xlsx.py:50-51 | `int` fails on a sign that is not the token's first character |
| Integers.ParseIntOfDecimal | docx2xlsx.py:50-51 | `int(str(n)) == n` for every integer n |
| RangeExpr.IndexOf | docx2xlsx.py:49 | `index` gives a position inside the string that holds the character |
| RangeExpr.IndexOfFirst | docx2xlsx.py:49 | the character does not occur before the position `index` gives |
| RangeExpr.SplitOn | docx2xlsx.py:70 | `split(',')` gives one more part than there are commas |
| RangeExpr.SplitOnPieces | docx2xlsx.py:70 | no part of `split(',')` holds a comma |
| RangeExpr.JoinWithSplitOn | docx2xlsx.py:70 | joining the parts of `split(',')` with commas gives back the expression |
| RangeExpr.Interval | docx2xlsx.py:52 | `range(fro, to+1)` has `to - fro + 1` elements, and none when `fro > to` |
| RangeExpr.IntervalValues | docx2xlsx.py:52 | the k-th element of `range(fro, to+1)` is `fro + k` |
| RangeExpr.SteppedShape | docx2xlsx.py:61-64 | the stepped list is empty exactly when `base > end`; it starts at `base`, goes up by `step`, stays at most `end`, and one more step would pass `end` |
| RangeExpr.SteppedClosedForm | docx2xlsx.py:61-64 | the k-th stepped element is `base + k * step`, and `base + len * step > end` |
| RangeExpr.ParseAllValues | docx2xlsx.py:69-72 | a token list converts exactly when every token does, and then gives one integer per token, in order |
| RangeExpr.ParseAllFirstError | docx2xlsx.py:70-71 | a list with a bad token fails with the first bad token |
| RangeExpr.RangeOf | docx2xlsx.py:44-74 | specification of `parse_range(numbers, end)`: the four forms tried in the code's order (`~`, then `,` with `+`, then `,`, then a single integer), with each raise as an `Err`; one lemma per form below states what it yields |
| RangeExpr.ParseRange | docx2xlsx.py:44-74 | the parser, with its loops, returns exactly `RangeOf(numbers, end)`, the range or the error |
| RangeExpr.AppendStepped | docx2xlsx.py:61-66 | the `while base <= end` loop builds the stepped list |
| RangeExpr.ParseTokens | docx2xlsx.py:69-72 | the `for num in numbers.split(',')` loop converts the tokens, or stops at the first failure |
| RangeExpr.IntervalFormSucceeds | docx2xlsx.py:48-52 | with a `~`, the interval form is taken even if there is a `,`; it succeeds exactly when both sides of the first `~` convert, a bad left side is reported, and `end` plays no part |
| RangeExpr.IntervalForm | docx2xlsx.py:48-52 | `A~B` gives the consecutive integers from A to B: x is in the list exactly when A <= x <= B |
| RangeExpr.SecondTildeFails | docx2xlsx.py:49-51 | a second `~` lands in the right bound, which fails to convert |
| RangeExpr.SteppedForm | docx2xlsx.py:53-66 | `BASE,+STEP` with a positive step gives `BASE + k * STEP` for every k with a value at most `end`, and nothing more |
| RangeExpr.SteppedValue | docx2xlsx.py:53-66 | with `end >= 1` and a positive step, `BASE,+STEP` gives the list the `while` loop builds |
| RangeExpr.SteppedResult | docx2xlsx.py:53-66 | whatever a successful `BASE,+STEP` with a positive step returns: `end` was at least 1, the k-th element is `BASE + k * STEP` and at most `end`, the list is empty exactly when `BASE > end`, and one more step would pass `end` |
| RangeExpr.SteppedFormRequiresEnd | docx2xlsx.py:55 | the stepped form fails when `end < 1`, and so with the default `end` |
| RangeExpr.SteppedFormBadToken | docx2xlsx.py:56-59 | with `end >= 1`, a BASE that `int` rejects is the error, and otherwise a STEP that `int` rejects is |
| RangeExpr.SteppedFormNonPositiveStep | docx2xlsx.py:62-64 | with a step of at most 0, the result is empty when `base > end`, and otherwise the case where the code never returns |
| RangeExpr.ListForm | docx2xlsx.py:67-72 | a comma list converts exactly when all its tokens do, and gives one integer per token, in order |
| RangeExpr.SingleForm | docx2xlsx.py:73-74 | an expression with neither `~` nor `,` is a single integer, or fails naming itself |
| RangeExpr.IntervalExample | docx2xlsx.py:45 | `1~3` gives `[1, 2, 3]` |
| RangeExpr.SteppedExample | docx2xlsx.py:46 | `1,+2` gives `[1, 3, 5]` with `end` 5 or 6 |
| RangeExpr.SteppedExampleWithoutEnd | docx2xlsx.py:55 | `1,+2` without `end` fails |
| RangeExpr.ListExample | docx2xlsx.py:47 | `3,5,10` gives `[3, 5, 10]` |
| RangeExpr.SingleExample | docx2xlsx.py:73-74 | `7` gives `[7]` |
| Locator.FirstMarked | docx2xlsx.py:82-92 | specification of the table search: the index of the first table whose probe cell cleans to the marker, found inside the list; `FirstMarkedIsFirst` states that it is the first |
| Locator.FirstMarkedIsFirst | docx2xlsx.py:86-92 | the index found is that of a marked table with no marked table before it; no index is found exactly when no table is marked |
| Locator.LocateTable | docx2xlsx.py:82-92 | the scan returns the table at `FirstMarked(tables)`, the first whose probe cell cleans to the marker, or nothing when there is none |
| Locator.MarkerIsClean | docx2xlsx.py:89 | the marker holds no whitespace, so a probe cell holding exactly the marker matches |
| Locator.MarkedDespiteWhitespace | docx2xlsx.py:87-89 | whitespace inserted anywhere in the probe cell neither makes nor breaks a match |
| Mapping.DocumentsFilter | docx2xlsx.py:116-120 | the entries processed are exactly those of the directory listing whose name ends in `.docx` |
| Mapping.Apply | docx2xlsx.py:144 | specification of a sequence of `worksheet.write` calls: each replaces one cell's text, in order; `ApplyShowsLastWrite` states what the sheet then shows |
| Mapping.ApplyShowsLastWrite | docx2xlsx.py:144 | after a sequence of writes, each cell shows the text of the last write to it, and an unwritten cell keeps its old content |
| Mapping.LastWriteAppend | docx2xlsx.py:144 | of two runs of writes, the second's last write to a cell wins |
| Mapping.SteppedColumnsFail | docx2xlsx.py:133 | the column expression is parsed without `end`, so a stepped column expression always fails |
| Mapping.SectionPlan | docx2xlsx.py:132-136 | specification of a section's three `parse_range` calls: `col` without `end`, an error for an empty column list, then `key` and `val` with its last element as `end`; stated by `SectionPlanRanges`, `SectionPlanColumnsFail` and `SectionPlanRangesFail` |
| Mapping.SectionPlanColumnsFail | docx2xlsx.py:133-134 | a section fails with the column expression's error, and with `EmptyColumns` when that expression gives no columns |
| Mapping.SectionPlanRangesFail | docx2xlsx.py:134-136 | with a non-empty column list, a failing key expression is the section's error, and otherwise a failing value expression is |
| Mapping.SectionPlanRanges | docx2xlsx.py:132-135 | once the column expression gives a non-empty list, a section reads exactly the key and value lists parsed with that list's last element as `end` |
| Mapping.SectionPlanExample | docx2xlsx.py:133-136 | columns `0~5`, keys `0,+2` and values `1,+2` read keys 0, 2, 4 and values 1, 3, 5 |
| Mapping.SectionWritesLayout | docx2xlsx.py:139-152 | a section writes the k-th key column's clean text to row 1 and the k-th value column's raw text to the data row, both at column `col_start + k`, labels first |
| Mapping.DocumentWritesRows | docx2xlsx.py:128-152 | a document writes only to its data row and, when the header is due, to row 1 |
| Mapping.DocumentWritesFirstFailure | docx2xlsx.py:128-136 | a document fails with the error of the first section whose range expressions fail |
| Mapping.SectionWritesSucceed | docx2xlsx.py:132-135 | a section succeeds exactly when its range expressions do, and otherwise fails with their error |
| Mapping.DocumentWritesSucceed | docx2xlsx.py:128-136 | a document succeeds exactly when every section's range expressions do |
| Mapping.TransferWrites | docx2xlsx.py:114-156 | specification of a run as written: the writes of each `.docx` entry's marked table, the flag reset for every entry, the data row one lower per document, and the first failure ending the run; stated by the lemmas below |
| Mapping.TransferSkipsOtherFiles | docx2xlsx.py:116-120 | a run is the same as the run over its `.docx` entries alone |
| Mapping.TransferWritesAppend | docx2xlsx.py:116-154 | a run over two groups of entries is the run over the first, then the run over the second, whose data rows start one row per document lower |
| Mapping.TransferFailsWithoutTable | docx2xlsx.py:123-126 | a `.docx` entry without a marked table makes the run fail, and when the entries before it succeed the failure is `TableNotFound` naming that entry |
| Mapping.TransferWritesRows | docx2xlsx.py:114-154 | a run writes only to row 1 and to one data row per document, consecutive from row 2 |
| Mapping.TitleRowFromLastDocument | docx2xlsx.py:119-145 | as written, a header cell ends up with the label of the last document that writes it |
| Mapping.TitleRowOverwrittenExample | docx2xlsx.py:119 | for any two whitespace-free labels, a run over two documents writes the first label to row 1, then the second, and leaves the second there |
| Mapping.TransferWritesOnce | docx2xlsx.py:119-156 | specification of the run as intended: the same as `TransferWrites`, except that the flag is set once, so only the first document writes header labels; stated by the lemmas below |
| Mapping.OnceSkipsOtherFiles | docx2xlsx.py:116-120 | in the corrected run too, entries that are not `.docx` files take no part |
| Mapping.OnceNoTitleAfterFirst | docx2xlsx.py:119-156 | in the corrected run, once the flag is set no later document writes to row 1 |
| Mapping.TitleRowFromFirstDocument | docx2xlsx.py:119-156 | with the flag kept across documents, row 1 holds exactly the labels of the first document |
| Mapping.Worksheet.Write | docx2xlsx.py:144 | a write sets one cell's text and leaves the others |
| Mapping.Transfer | docx2xlsx.py:114-156 | when `TransferWrites` succeeds, the run has applied exactly its writes, in order; when it fails, the run reports the same failure |
| Mapping.TransferDocument | docx2xlsx.py:128-152 | the section loop of one document makes that document's writes, or reports the first failing section's error |
| Mapping.TransferSection | docx2xlsx.py:129-152 | one section parses its three range expressions, then writes its labels (when the header is due) and its values, the writes of `SectionWrites`; a failing section has written nothing, because all three parses come before any write |
| Mapping.WriteTitles | docx2xlsx.py:141-145 | the header loop writes the clean text of each key column to row 1, from `col_start` on |
| Mapping.WriteValues | docx2xlsx.py:147-152 | the value loop writes the raw text of each value column to the data row, from `col_start` on |

## Left out

- Command-line parsing (`parse_options`, docx2xlsx.py:13-42): it only selects the three paths.
- Reading the JSON configuration (docx2xlsx.py:76-80): the model takes the parsed sections as a sequence, in the order the object lists them.
- Creating the workbook and sheet and the cell format (docx2xlsx.py:105-110), and closing the workbook (docx2xlsx.py:158): the format is the same for every write, and the file's encoding is not modelled. The sheet is a map from (row, column) to text.
- Opening a document with python-docx (docx2xlsx.py:122) and listing the directory (docx2xlsx.py:116-117): the model takes the entries, each with its name and tables, in listing order. That order is whatever the operating system returns.
- Mapping.Transfer: on failure the contract names the failure but not the writes already made. The code exits or raises without closing the workbook, so those writes are never saved.
- Mapping.Transfer: the message printed for a document without a marked table is not modelled; the exit status 2 is the `TableNotFound` failure.
- Locator.Table: a cell lookup is total. python-docx raises `IndexError` for a cell past the table's end and wraps negative indices; these cases are not modelled.
- Integers.ParseInt: accepts only an optional sign and ASCII digits. Python's `int` also accepts surrounding whitespace, `_` between digits and non-ASCII decimal digits; an expression such as `1, 2` therefore fails in the model but not in the source.
- RangeExpr.RangeOf: for `BASE,+STEP` with a step of at most 0 and `BASE <= end`, the source loops forever, appending without end. The model returns the `EndlessStep` error instead.
- Failures beyond those above are not modelled: a section record without one of its fields, or a field of the wrong type.

## Findings

| source | as written | input that shows it | evidently intended | confidence | as-written member | corrected member |
|---|---|---|---|---|---|---|
| docx2xlsx.py:119 | `title_has_wrote = False` sits inside the loop over directory entries, so every document writes the header row again, and the row ends up with the last document's labels | two marked documents, one section `{row: 2, from: {col: "1", key: "1", val: "1"}, to: {col_start: 0}}`, cell (2, 1) holding `A` in the first and `B` in the second: cell (1, 0) of the sheet shows `B` | set the flag once before the loop, so that the header is written by the first document only | medium, not executed | Mapping.TitleRowOverwrittenExample | Mapping.TitleRowFromFirstDocument |
