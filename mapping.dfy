/** The transfer loop of `docx2xlsx.py`: for every `.docx` entry of the input
    directory, locate the marked table and, section by section, write the header
    labels to the title row and the values to the document's own data row. */
module Mapping {
  import opened Results
  import opened Text
  import opened Integers
  import opened RangeExpr
  import opened Locator

  /** One section of the configuration. `row` is the table row read; `col`, `key`
      and `val` are range expressions: `col` only supplies `end` (its last
      element) for open-ended `key` and `val` expressions, `key` names the columns
      holding header labels and `val` those holding values; both are written
      from sheet column `colStart` on. The configuration is the sequence of
      sections in the order the configuration object lists them. */
  datatype Section = Section(row: int, col: string, key: string, val: string, colStart: int)

  /** A directory entry: its file name and, when it is a document, its tables. */
  datatype Entry = Entry(name: string, tables: seq<Table>)

  /** What ends a run before the workbook is closed. */
  datatype Failure =
    | TableNotFound(file: string)   // no table is marked: the run exits with status 2
    | BadRange(error: RangeError)   // a range expression raises
    | EmptyColumns                  // `docx_cols[-1]` of an empty column range raises

  datatype Outcome = Completed | Aborted(failure: Failure)

  /** One `worksheet.write(row, col, text)` call; the cell format is the same for
      every call and is not modelled. */
  datatype Write = Write(row: int, col: int, text: string)

  /** The cells of a sheet: the text last written at each (row, column). */
  type Sheet = map<(int, int), string>

  const TitleRow := 1
  const FirstDataRow := TitleRow + 1

  /** `filename.endswith(".docx")` */
  predicate IsDocx(name: string) {
    |name| >= 5 && name[|name| - 5..] == ".docx"
  }

  /** The entries that are processed, in directory order. */
  function Documents(entries: seq<Entry>): (docs: seq<Entry>)
    ensures |docs| <= |entries|
  {
    if entries == [] then []
    else (if IsDocx(entries[0].name) then [entries[0]] else []) + Documents(entries[1..])
  }

  /** The documents are exactly the `.docx` entries. */
  lemma {:induction false} DocumentsFilter(entries: seq<Entry>)
    ensures forall e :: e in Documents(entries) <==> e in entries && IsDocx(e.name)
  {
    if entries != [] {
      DocumentsFilter(entries[1..]);
      assert entries == [entries[0]] + entries[1..];
    }
  }

  function Lift(r: Result<seq<int>, RangeError>): Result<seq<int>, Failure> {
    if r.Ok? then Ok(r.value) else Err(BadRange(r.error))
  }

  /** The columns a section reads: header label columns and value columns. */
  datatype Plan = Plan(keys: seq<int>, vals: seq<int>)

  /** The three `parse_range` calls of a section, `col` with the default `end`,
      `key` and `val` with the last element of the column range as `end`. */
  function SectionPlan(s: Section): Result<Plan, Failure> {
    var cols :- Lift(RangeOf(s.col, -1));
    if cols == [] then Err(EmptyColumns)
    else
      var end := cols[|cols| - 1];
      var keys :- Lift(RangeOf(s.key, end));
      var vals :- Lift(RangeOf(s.val, end));
      Ok(Plan(keys, vals))
  }

  /** The header writes of a section: the clean text of each key column of its
      row, in the title row, from `colStart` on. */
  function TitleWrites(t: Table, row: int, keys: seq<int>, colStart: int): seq<Write> {
    seq(|keys|, k requires 0 <= k < |keys| =>
      Write(TitleRow, colStart + k, CleanText(t.cell(row, keys[k]))))
  }

  /** The value writes of a section: the raw text of each value column of its
      row, in row `xlsxRow`, from `colStart` on. */
  function ValueWrites(t: Table, row: int, vals: seq<int>, colStart: int, xlsxRow: int): seq<Write> {
    seq(|vals|, k requires 0 <= k < |vals| =>
      Write(xlsxRow, colStart + k, t.cell(row, vals[k])))
  }

  function SectionWrites(t: Table, s: Section, xlsxRow: int, writeTitle: bool): Result<seq<Write>, Failure> {
    var plan :- SectionPlan(s);
    Ok((if writeTitle then TitleWrites(t, s.row, plan.keys, s.colStart) else [])
       + ValueWrites(t, s.row, plan.vals, s.colStart, xlsxRow))
  }

  /** The writes of one step followed by those of the rest; the first failure
      ends the run. */
  function Chain(first: Result<seq<Write>, Failure>, rest: Result<seq<Write>, Failure>): Result<seq<Write>, Failure> {
    var w1 :- first;
    var w2 :- rest;
    Ok(w1 + w2)
  }

  lemma ChainAssociative(a: Result<seq<Write>, Failure>, b: Result<seq<Write>, Failure>, c: Result<seq<Write>, Failure>)
    ensures Chain(a, Chain(b, c)) == Chain(Chain(a, b), c)
  {
    if a.Ok? && b.Ok? && c.Ok? {
      assert a.value + (b.value + c.value) == (a.value + b.value) + c.value;
    }
  }

  lemma ChainOkEmpty(r: Result<seq<Write>, Failure>)
    ensures Chain(Ok([]), r) == r
  {
    if r.Ok? {
      assert [] + r.value == r.value;
    }
  }

  /** The writes for one document: its sections in order; the first section
      that raises ends the run. */
  function DocumentWrites(t: Table, config: seq<Section>, xlsxRow: int, writeTitle: bool): Result<seq<Write>, Failure> {
    if config == [] then Ok([])
    else Chain(SectionWrites(t, config[0], xlsxRow, writeTitle), DocumentWrites(t, config[1..], xlsxRow, writeTitle))
  }

  /** The writes of one document: those of its marked table, or `TableNotFound`
      when none of its tables is marked. */
  function EntryWrites(e: Entry, config: seq<Section>, xlsxRow: int, writeTitle: bool): Result<seq<Write>, Failure> {
    match FirstMarked(e.tables)
    case None => Err(TableNotFound(e.name))
    case Some(i) => DocumentWrites(e.tables[i], config, xlsxRow, writeTitle)
  }

  /** The writes of a run as the code is written: `title_has_wrote` is reset for
      every entry, so every document writes the header labels again. Entries that
      are not `.docx` files are skipped; each document moves the data row down
      by one. */
  function TransferWrites(entries: seq<Entry>, config: seq<Section>, xlsxRow: int): Result<seq<Write>, Failure> {
    if entries == [] then Ok([])
    else if !IsDocx(entries[0].name) then TransferWrites(entries[1..], config, xlsxRow)
    else Chain(EntryWrites(entries[0], config, xlsxRow, true), TransferWrites(entries[1..], config, xlsxRow + 1))
  }

  /** The writes of a run as evidently intended: the flag is set once, by the
      first document, and later documents write only their values. */
  function TransferWritesOnce(entries: seq<Entry>, config: seq<Section>, xlsxRow: int, titleWritten: bool): Result<seq<Write>, Failure> {
    if entries == [] then Ok([])
    else if !IsDocx(entries[0].name) then TransferWritesOnce(entries[1..], config, xlsxRow, titleWritten)
    else Chain(EntryWrites(entries[0], config, xlsxRow, !titleWritten), TransferWritesOnce(entries[1..], config, xlsxRow + 1, true))
  }

  /** The sheet after a sequence of writes: each write replaces the cell's text. */
  function Apply(m: Sheet, writes: seq<Write>): Sheet
    decreases |writes|
  {
    if writes == [] then m
    else Apply(m[(writes[0].row, writes[0].col) := writes[0].text], writes[1..])
  }

  /** The reference reading of a cell: the text of the last write to it. */
  function LastWrite(writes: seq<Write>, pos: (int, int)): Option<string> {
    if writes == [] then None
    else
      var w := writes[|writes| - 1];
      if (w.row, w.col) == pos then Some(w.text) else LastWrite(writes[..|writes| - 1], pos)
  }

  function Lookup(m: Sheet, pos: (int, int)): Option<string> {
    if pos in m then Some(m[pos]) else None
  }

  lemma {:induction false} ApplyAppend(m: Sheet, a: seq<Write>, b: seq<Write>)
    ensures Apply(m, a + b) == Apply(Apply(m, a), b)
    decreases |a|
  {
    if a == [] {
      assert a + b == b;
    } else {
      var m' := m[(a[0].row, a[0].col) := a[0].text];
      assert (a + b)[0] == a[0];
      assert (a + b)[1..] == a[1..] + b;
      assert Apply(m, a + b) == Apply(m', a[1..] + b);
      ApplyAppend(m', a[1..], b);
    }
  }

  lemma ApplySnoc(m: Sheet, a: seq<Write>, w: Write)
    ensures Apply(m, a + [w]) == Apply(m, a)[(w.row, w.col) := w.text]
  {
    ApplyAppend(m, a, [w]);
  }

  /** Applying writes to a sheet leaves every cell with the text of the last
      write to it, and cells nobody wrote as they were. */
  lemma {:induction false} ApplyShowsLastWrite(m: Sheet, writes: seq<Write>, pos: (int, int))
    ensures Lookup(Apply(m, writes), pos)
            == match LastWrite(writes, pos)
               case Some(text) => Some(text)
               case None => Lookup(m, pos)
  {
    if writes != [] {
      var n := |writes| - 1;
      assert writes == writes[..n] + [writes[n]];
      ApplySnoc(m, writes[..n], writes[n]);
      ApplyShowsLastWrite(m, writes[..n], pos);
    }
  }

  /** The last write to a cell over two runs of writes comes from the second
      when it writes the cell. */
  lemma {:induction false} LastWriteAppend(a: seq<Write>, b: seq<Write>, pos: (int, int))
    ensures LastWrite(a + b, pos) == if LastWrite(b, pos).Some? then LastWrite(b, pos) else LastWrite(a, pos)
  {
    if b == [] {
      assert a + b == a;
    } else {
      var n := |b| - 1;
      assert (a + b)[..|a + b| - 1] == a + b[..n];
      LastWriteAppend(a, b[..n], pos);
    }
  }

  lemma {:induction false} LastWriteNone(writes: seq<Write>, pos: (int, int))
    requires forall k :: 0 <= k < |writes| ==> (writes[k].row, writes[k].col) != pos
    ensures LastWrite(writes, pos) == None
  {
    if writes != [] {
      var n := |writes| - 1;
      assert forall k :: 0 <= k < n ==> writes[..n][k] == writes[k];
      LastWriteNone(writes[..n], pos);
    }
  }

  // ---------------------------------------------------------------------------
  // Properties of one section and one document

  /** A stepped column expression needs an `end`, and `col` is parsed with none:
      such a section always fails. */
  lemma SteppedColumnsFail(s: Section)
    requires '~' !in s.col && ',' in s.col && '+' in s.col
    ensures SectionPlan(s) == Err(BadRange(EndRequired))
  {
    SteppedFormRequiresEnd(s.col, -1);
  }

  /** A section fails when its column expression does, and when that expression
      gives no columns at all, so that the code has no last column to take. */
  lemma SectionPlanColumnsFail(s: Section)
    ensures RangeOf(s.col, -1).Err? ==> SectionPlan(s) == Err(BadRange(RangeOf(s.col, -1).error))
    ensures RangeOf(s.col, -1) == Ok([]) ==> SectionPlan(s) == Err(EmptyColumns)
  {
  }

  /** With a non-empty column range, a failing key expression is the section's
      error, and otherwise a failing value expression is. */
  lemma SectionPlanRangesFail(s: Section, cols: seq<int>)
    requires RangeOf(s.col, -1) == Ok(cols) && cols != []
    ensures var keys := RangeOf(s.key, cols[|cols| - 1]);
            keys.Err? ==> SectionPlan(s) == Err(BadRange(keys.error))
    ensures var keys, vals := RangeOf(s.key, cols[|cols| - 1]), RangeOf(s.val, cols[|cols| - 1]);
            keys.Ok? && vals.Err? ==> SectionPlan(s) == Err(BadRange(vals.error))
  {
    var end := cols[|cols| - 1];
    var keys, vals := RangeOf(s.key, end), RangeOf(s.val, end);
    assert Lift(RangeOf(s.col, -1)) == Ok(cols);
    if keys.Err? {
      assert Lift(keys) == Err(BadRange(keys.error));
    } else if vals.Err? {
      assert Lift(vals) == Err(BadRange(vals.error));
    }
  }

  /** Once the column range parses to a non-empty list, a section's plan is
      exactly its key and value expressions parsed with the last column as
      `end`. */
  lemma SectionPlanRanges(s: Section, p: Plan, cols: seq<int>)
    requires RangeOf(s.col, -1) == Ok(cols) && cols != []
    ensures SectionPlan(s) == Ok(p)
            <==> RangeOf(s.key, cols[|cols| - 1]) == Ok(p.keys) && RangeOf(s.val, cols[|cols| - 1]) == Ok(p.vals)
  {
    var end := cols[|cols| - 1];
    var keys, vals := RangeOf(s.key, end), RangeOf(s.val, end);
    assert Lift(RangeOf(s.col, -1)) == Ok(cols);
    if keys.Ok? && vals.Ok? {
      assert SectionPlan(s) == Ok(Plan(keys.value, vals.value));
    } else {
      assert SectionPlan(s).Err?;
    }
  }

  /** The section of the common configuration shape: columns 0 to 5, labels in
      the even columns and values in the odd ones. */
  lemma SectionPlanExample()
    ensures SectionPlan(Section(2, "0~5", "0,+2", "1,+2", 0)) == Ok(Plan([0, 2, 4], [1, 3, 5]))
  {
    ColumnsExample();
    EvenColumnsExample();
    OddColumnsExample();
  }

  lemma ColumnsExample()
    ensures RangeOf("0~5", -1) == Ok([0, 1, 2, 3, 4, 5])
  {
    var c := "0~5";
    assert c[1..][0] == '~';
    assert IndexOf(c, '~') == 1;
    assert c[..1] == "0" && c[2..] == "5";
    ParseIntOfDecimal(0);
    ParseIntOfDecimal(5);
    assert Interval(0, 5) == [0, 1, 2, 3, 4, 5];
  }

  lemma EvenColumnsExample()
    ensures RangeOf("0,+2", 5) == Ok([0, 2, 4])
  {
    var e := "0,+2";
    assert e[1..][0] == ',' && e[1..][1..][0] == '+';
    assert IndexOf(e, ',') == 1 && IndexOf(e, '+') == 2;
    assert e[..1] == "0" && e[3..] == "2";
    ParseIntOfDecimal(0);
    ParseIntOfDecimal(2);
    SteppedForm(e, 5, 0, 2);
    assert Stepped(6, 2, 5) == [];
    assert Stepped(0, 2, 5) == [0, 2, 4];
  }

  lemma OddColumnsExample()
    ensures RangeOf("1,+2", 5) == Ok([1, 3, 5])
  {
    SteppedExample();
  }

  /** A section writes its labels in the title row and its values in the
      document's row, each run from `colStart` on, labels first. */
  lemma SectionWritesLayout(t: Table, s: Section, xlsxRow: int, writeTitle: bool)
    requires SectionPlan(s).Ok?
    ensures var p := SectionPlan(s).value;
            var h := if writeTitle then |p.keys| else 0;
            && SectionWrites(t, s, xlsxRow, writeTitle).Ok?
            && |SectionWrites(t, s, xlsxRow, writeTitle).value| == h + |p.vals|
            && (forall k :: 0 <= k < h ==>
                  SectionWrites(t, s, xlsxRow, writeTitle).value[k]
                  == Write(TitleRow, s.colStart + k, CleanText(t.cell(s.row, p.keys[k]))))
            && (forall k :: 0 <= k < |p.vals| ==>
                  SectionWrites(t, s, xlsxRow, writeTitle).value[h + k]
                  == Write(xlsxRow, s.colStart + k, t.cell(s.row, p.vals[k])))
  {
  }

  /** A document writes only to the title row and to its own data row, and
      only to its data row once the header is written. */
  lemma {:induction false} DocumentWritesRows(t: Table, config: seq<Section>, xlsxRow: int, writeTitle: bool)
    requires DocumentWrites(t, config, xlsxRow, writeTitle).Ok?
    ensures var w := DocumentWrites(t, config, xlsxRow, writeTitle).value;
            forall k :: 0 <= k < |w| ==>
              (w[k].row == xlsxRow || (writeTitle && w[k].row == TitleRow))
  {
    if config != [] {
      DocumentWritesRows(t, config[1..], xlsxRow, writeTitle);
    }
  }

  /** A document fails exactly at the first section whose ranges fail; which
      section that is does not depend on the document. */
  lemma {:induction false} DocumentWritesFirstFailure(t: Table, config: seq<Section>, xlsxRow: int, writeTitle: bool, k: nat)
    requires k < |config| && SectionPlan(config[k]).Err?
    requires forall j :: 0 <= j < k ==> SectionPlan(config[j]).Ok?
    ensures DocumentWrites(t, config, xlsxRow, writeTitle) == Err(SectionPlan(config[k]).error)
  {
    var rest := config[1..];
    assert DocumentWrites(t, config, xlsxRow, writeTitle)
        == Chain(SectionWrites(t, config[0], xlsxRow, writeTitle), DocumentWrites(t, rest, xlsxRow, writeTitle));
    SectionWritesSucceed(t, config[0], xlsxRow, writeTitle);
    if k > 0 {
      assert forall j :: 0 <= j < k - 1 ==> rest[j] == config[j + 1];
      DocumentWritesFirstFailure(t, rest, xlsxRow, writeTitle, k - 1);
    }
  }

  lemma {:induction false} DocumentWritesSucceed(t: Table, config: seq<Section>, xlsxRow: int, writeTitle: bool)
    ensures DocumentWrites(t, config, xlsxRow, writeTitle).Ok?
            <==> forall j :: 0 <= j < |config| ==> SectionPlan(config[j]).Ok?
  {
    if config != [] {
      var rest := config[1..];
      DocumentWritesSucceed(t, rest, xlsxRow, writeTitle);
      SectionWritesSucceed(t, config[0], xlsxRow, writeTitle);
      assert forall j :: 0 < j < |config| ==> config[j] == rest[j - 1];
    }
  }

  lemma SectionWritesSucceed(t: Table, s: Section, xlsxRow: int, writeTitle: bool)
    ensures SectionWrites(t, s, xlsxRow, writeTitle).Ok? <==> SectionPlan(s).Ok?
    ensures SectionPlan(s).Err? ==> SectionWrites(t, s, xlsxRow, writeTitle) == Err(SectionPlan(s).error)
  {
  }

  // ---------------------------------------------------------------------------
  // Properties of a run

  /** Entries that are not `.docx` files take no part in a run. */
  lemma {:induction false} TransferSkipsOtherFiles(entries: seq<Entry>, config: seq<Section>, xlsxRow: int)
    ensures TransferWrites(entries, config, xlsxRow) == TransferWrites(Documents(entries), config, xlsxRow)
  {
    if entries != [] {
      if IsDocx(entries[0].name) {
        TransferSkipsOtherFiles(entries[1..], config, xlsxRow + 1);
        var d := Documents(entries);
        assert d[0] == entries[0] && d[1..] == Documents(entries[1..]);
      } else {
        TransferSkipsOtherFiles(entries[1..], config, xlsxRow);
        assert Documents(entries) == Documents(entries[1..]);
      }
    }
  }

  /** A run over two groups of entries is the run over the first followed by the
      run over the second, whose data rows start below one row per document of
      the first group. */
  lemma {:induction false} TransferWritesAppend(a: seq<Entry>, b: seq<Entry>, config: seq<Section>, xlsxRow: int)
    ensures TransferWrites(a + b, config, xlsxRow)
            == Chain(TransferWrites(a, config, xlsxRow), TransferWrites(b, config, xlsxRow + |Documents(a)|))
  {
    if a == [] {
      assert a + b == b;
      ChainOkEmpty(TransferWrites(b, config, xlsxRow));
    } else if !IsDocx(a[0].name) {
      TransferWritesAppend(a[1..], b, config, xlsxRow);
      AppendSkipped(a, b, config, xlsxRow);
    } else {
      TransferWritesAppend(a[1..], b, config, xlsxRow + 1);
      AppendDocument(a, b, config, xlsxRow);
    }
  }

  lemma AppendSkipped(a: seq<Entry>, b: seq<Entry>, config: seq<Section>, xlsxRow: int)
    requires a != [] && !IsDocx(a[0].name)
    requires TransferWrites(a[1..] + b, config, xlsxRow)
             == Chain(TransferWrites(a[1..], config, xlsxRow), TransferWrites(b, config, xlsxRow + |Documents(a[1..])|))
    ensures TransferWrites(a + b, config, xlsxRow)
            == Chain(TransferWrites(a, config, xlsxRow), TransferWrites(b, config, xlsxRow + |Documents(a)|))
  {
    assert (a + b)[0] == a[0] && (a + b)[1..] == a[1..] + b;
    assert Documents(a) == Documents(a[1..]);
  }

  lemma AppendDocument(a: seq<Entry>, b: seq<Entry>, config: seq<Section>, xlsxRow: int)
    requires a != [] && IsDocx(a[0].name)
    requires TransferWrites(a[1..] + b, config, xlsxRow + 1)
             == Chain(TransferWrites(a[1..], config, xlsxRow + 1), TransferWrites(b, config, xlsxRow + 1 + |Documents(a[1..])|))
    ensures TransferWrites(a + b, config, xlsxRow)
            == Chain(TransferWrites(a, config, xlsxRow), TransferWrites(b, config, xlsxRow + |Documents(a)|))
  {
    assert (a + b)[0] == a[0] && (a + b)[1..] == a[1..] + b;
    assert |Documents(a)| == 1 + |Documents(a[1..])|;
    ChainAssociative(EntryWrites(a[0], config, xlsxRow, true), TransferWrites(a[1..], config, xlsxRow + 1),
                     TransferWrites(b, config, xlsxRow + |Documents(a)|));
  }

  /** A document with no marked table ends the run. */
  lemma TransferFailsWithoutTable(entries: seq<Entry>, config: seq<Section>, xlsxRow: int, k: nat)
    requires k < |entries| && IsDocx(entries[k].name) && FirstMarked(entries[k].tables) == None
    ensures TransferWrites(entries, config, xlsxRow).Err?
    ensures TransferWrites(entries[..k], config, xlsxRow).Ok?
            ==> TransferWrites(entries, config, xlsxRow) == Err(TableNotFound(entries[k].name))
  {
    var before, after := entries[..k], entries[k..];
    assert entries == before + after;
    TransferWritesAppend(before, after, config, xlsxRow);
    TransferFailsHere(after, config, xlsxRow + |Documents(before)|);
  }

  lemma TransferFailsHere(entries: seq<Entry>, config: seq<Section>, xlsxRow: int)
    requires entries != [] && IsDocx(entries[0].name) && FirstMarked(entries[0].tables) == None
    ensures TransferWrites(entries, config, xlsxRow) == Err(TableNotFound(entries[0].name))
  {
  }

  /** A run writes only to the title row and to one data row per document, the
      rows following each other from `xlsxRow` on. */
  lemma {:induction false} TransferWritesRows(entries: seq<Entry>, config: seq<Section>, xlsxRow: int)
    requires TransferWrites(entries, config, xlsxRow).Ok?
    ensures var w := TransferWrites(entries, config, xlsxRow).value;
            forall k :: 0 <= k < |w| ==>
              w[k].row == TitleRow || xlsxRow <= w[k].row < xlsxRow + |Documents(entries)|
  {
    if entries != [] {
      if IsDocx(entries[0].name) {
        var i := FirstMarked(entries[0].tables).value;
        DocumentWritesRows(entries[0].tables[i], config, xlsxRow, true);
        TransferWritesRows(entries[1..], config, xlsxRow + 1);
      } else {
        TransferWritesRows(entries[1..], config, xlsxRow);
      }
    }
  }

  /** As written, every document writes the header again, so a title cell
      ends up with the label of the last document that writes it. */
  lemma TitleRowFromLastDocument(a: seq<Entry>, e: Entry, config: seq<Section>, xlsxRow: int, col: int)
    requires IsDocx(e.name) && FirstMarked(e.tables).Some?
    requires TransferWrites(a + [e], config, xlsxRow).Ok?
    ensures var t := e.tables[FirstMarked(e.tables).value];
            var last := DocumentWrites(t, config, xlsxRow + |Documents(a)|, true);
            && last.Ok?
            && (LastWrite(last.value, (TitleRow, col)).Some? ==>
                  LastWrite(TransferWrites(a + [e], config, xlsxRow).value, (TitleRow, col))
                  == LastWrite(last.value, (TitleRow, col)))
  {
    TransferWritesAppend(a, [e], config, xlsxRow);
    var t := e.tables[FirstMarked(e.tables).value];
    var last := DocumentWrites(t, config, xlsxRow + |Documents(a)|, true);
    assert [e][1..] == [];
    if last.Ok? {
      assert TransferWrites([e], config, xlsxRow + |Documents(a)|) == Ok(last.value + []);
      assert last.value + [] == last.value;
      LastWriteAppend(TransferWrites(a, config, xlsxRow).value, last.value, (TitleRow, col));
    }
  }

  /** A marked one-row form whose cell (2, 1) holds `text`. */
  function ExampleTable(text: string): Table {
    Table((r, c) => if r == 1 && c == 0 then Marker else if r == 2 && c == 1 then text else "")
  }

  lemma ExampleTableMarked(text: string)
    ensures IsMarked(ExampleTable(text)) && ExampleTable(text).cell(2, 1) == text
  {
    MarkerIsClean();
    assert ExampleTable(text).cell(1, 0) == Marker;
  }

  /** Two documents from the same form whose label cells hold `first` and
      `second`: as written, the title cell shows the second document's label,
      however the two differ. */
  lemma TitleRowOverwrittenExample(first: string, second: string)
    requires NoWhitespace(first) && NoWhitespace(second)
    ensures var w := TransferWrites([Entry("a.docx", [ExampleTable(first)]), Entry("b.docx", [ExampleTable(second)])],
                                    [Section(2, "1", "1", "1", 0)], FirstDataRow);
            && w == Ok([Write(1, 0, first), Write(2, 0, first), Write(1, 0, second), Write(3, 0, second)])
            && Lookup(Apply(map[], w.value), (TitleRow, 0)) == Some(second)
  {
    ExampleTableMarked(first);
    ExampleTableMarked(second);
    CleanTextOfCleanText(first);
    CleanTextOfCleanText(second);
    TwoDocumentRun(ExampleTable(first), ExampleTable(second));
    var w := [Write(1, 0, first), Write(2, 0, first), Write(1, 0, second), Write(3, 0, second)];
    ApplyShowsLastWrite(map[], w, (TitleRow, 0));
    assert w[..3] == [Write(1, 0, first), Write(2, 0, first), Write(1, 0, second)];
  }

  /** The run over two marked documents with the one-cell section of the
      example. */
  lemma TwoDocumentRun(t1: Table, t2: Table)
    requires IsMarked(t1) && IsMarked(t2)
    ensures TransferWrites([Entry("a.docx", [t1]), Entry("b.docx", [t2])], [Section(2, "1", "1", "1", 0)], FirstDataRow)
            == Ok([Write(1, 0, CleanText(t1.cell(2, 1))), Write(2, 0, t1.cell(2, 1)),
                   Write(1, 0, CleanText(t2.cell(2, 1))), Write(3, 0, t2.cell(2, 1))])
  {
    var config := [Section(2, "1", "1", "1", 0)];
    var e1, e2 := Entry("a.docx", [t1]), Entry("b.docx", [t2]);
    var doc1 := [Write(1, 0, CleanText(t1.cell(2, 1))), Write(2, 0, t1.cell(2, 1))];
    var doc2 := [Write(1, 0, CleanText(t2.cell(2, 1))), Write(3, 0, t2.cell(2, 1))];
    assert IsDocx(e1.name) && IsDocx(e2.name);
    assert FirstMarked(e1.tables) == Some(0) && FirstMarked(e2.tables) == Some(0);
    ExampleSectionWrites(t1, 2);
    ExampleSectionWrites(t2, 3);
    assert config[1..] == [];
    assert doc1 + [] == doc1 && doc2 + [] == doc2;
    assert DocumentWrites(t1, config, 2, true) == Ok(doc1);
    assert DocumentWrites(t2, config, 3, true) == Ok(doc2);
    assert [e1, e2][1..] == [e2] && [e2][1..] == [];
    assert TransferWrites([e2], config, 3) == Ok(doc2);
    assert TransferWrites([e1, e2], config, 2) == Ok(doc1 + doc2);
    assert doc1 + doc2 == [doc1[0], doc1[1], doc2[0], doc2[1]];
  }

  lemma ExampleSectionWrites(t: Table, xlsxRow: int)
    ensures SectionWrites(t, Section(2, "1", "1", "1", 0), xlsxRow, true)
            == Ok([Write(1, 0, CleanText(t.cell(2, 1))), Write(xlsxRow, 0, t.cell(2, 1))])
  {
    var s := Section(2, "1", "1", "1", 0);
    ExampleSectionPlan();
    var p := SectionPlan(s).value;
    assert p.keys == [1] && p.vals == [1];
    assert SectionWrites(t, s, xlsxRow, true)
           == Ok(TitleWrites(t, 2, p.keys, 0) + ValueWrites(t, 2, p.vals, 0, xlsxRow));
    assert TitleWrites(t, 2, [1], 0) == [Write(1, 0, CleanText(t.cell(2, 1)))];
    assert ValueWrites(t, 2, [1], 0, xlsxRow) == [Write(xlsxRow, 0, t.cell(2, 1))];
    assert [Write(1, 0, CleanText(t.cell(2, 1)))] + [Write(xlsxRow, 0, t.cell(2, 1))]
           == [Write(1, 0, CleanText(t.cell(2, 1))), Write(xlsxRow, 0, t.cell(2, 1))];
  }

  lemma ExampleSectionPlan()
    ensures SectionPlan(Section(2, "1", "1", "1", 0)) == Ok(Plan([1], [1]))
  {
    assert "1" == Decimal(1);
    ParseIntOfDecimal(1);
  }


  /** After the first document, the corrected run writes no title cell. */
  lemma {:induction false} OnceNoTitleAfterFirst(entries: seq<Entry>, config: seq<Section>, xlsxRow: int)
    requires xlsxRow > TitleRow
    requires TransferWritesOnce(entries, config, xlsxRow, true).Ok?
    ensures var w := TransferWritesOnce(entries, config, xlsxRow, true).value;
            forall k :: 0 <= k < |w| ==> w[k].row != TitleRow
  {
    if entries != [] {
      if IsDocx(entries[0].name) {
        var i := FirstMarked(entries[0].tables).value;
        DocumentWritesRows(entries[0].tables[i], config, xlsxRow, false);
        OnceNoTitleAfterFirst(entries[1..], config, xlsxRow + 1);
      } else {
        OnceNoTitleAfterFirst(entries[1..], config, xlsxRow);
      }
    }
  }

  /** Entries that are not `.docx` files take no part in the corrected run either. */
  lemma {:induction false} OnceSkipsOtherFiles(entries: seq<Entry>, config: seq<Section>, xlsxRow: int, titleWritten: bool)
    ensures TransferWritesOnce(entries, config, xlsxRow, titleWritten)
            == TransferWritesOnce(Documents(entries), config, xlsxRow, titleWritten)
  {
    if entries != [] {
      if IsDocx(entries[0].name) {
        OnceSkipsOtherFiles(entries[1..], config, xlsxRow + 1, true);
        var d := Documents(entries);
        assert d[0] == entries[0] && d[1..] == Documents(entries[1..]);
      } else {
        OnceSkipsOtherFiles(entries[1..], config, xlsxRow, titleWritten);
        assert Documents(entries) == Documents(entries[1..]);
      }
    }
  }

  /** In the corrected run, the title row holds exactly the labels of the first
      document. */
  lemma TitleRowFromFirstDocument(entries: seq<Entry>, config: seq<Section>, col: int)
    requires Documents(entries) != []
    requires TransferWritesOnce(entries, config, FirstDataRow, false).Ok?
    ensures var e := Documents(entries)[0];
            && FirstMarked(e.tables).Some?
            && var first := DocumentWrites(e.tables[FirstMarked(e.tables).value], config, FirstDataRow, true);
               && first.Ok?
               && LastWrite(TransferWritesOnce(entries, config, FirstDataRow, false).value, (TitleRow, col))
                  == LastWrite(first.value, (TitleRow, col))
  {
    OnceSkipsOtherFiles(entries, config, FirstDataRow, false);
    var d := Documents(entries);
    var e := d[0];
    DocumentsFilter(entries);
    assert e in d;
    var i := FirstMarked(e.tables).value;
    var first := DocumentWrites(e.tables[i], config, FirstDataRow, true);
    var rest := TransferWritesOnce(d[1..], config, FirstDataRow + 1, true);
    OnceNoTitleAfterFirst(d[1..], config, FirstDataRow + 1);
    LastWriteNone(rest.value, (TitleRow, col));
    LastWriteAppend(first.value, rest.value, (TitleRow, col));
  }

  // ---------------------------------------------------------------------------
  // The imperative transfer

  /** The xlsxwriter worksheet: the text written so far to each cell. */
  class Worksheet {
    var cells: Sheet

    constructor ()
      ensures cells == map[]
    {
      cells := map[];
    }

    /** `worksheet.write(row, col, text, cell_format)` */
    method Write(row: int, col: int, text: string)
      modifies this
      ensures cells == old(cells)[(row, col) := text]
    {
      cells := cells[(row, col) := text];
    }
  }

  /** `transfer`: the loop over directory entries. On success every write of
      the run has been made to the sheet in order; a failure ends the run, and
      the workbook is then never closed. */
  method Transfer(entries: seq<Entry>, config: seq<Section>, sheet: Worksheet) returns (outcome: Outcome)
    modifies sheet
    ensures match TransferWrites(entries, config, FirstDataRow)
            case Ok(writes) => outcome == Completed && sheet.cells == Apply(old(sheet.cells), writes)
            case Err(f) => outcome == Aborted(f)
  {
    var xlsxRowTitle := TitleRow;
    var xlsxRow := xlsxRowTitle + 1;
    ghost var done: seq<Write> := [];
    ghost var m0 := sheet.cells;
    assert entries[0..] == entries;
    ChainOkEmpty(TransferWrites(entries, config, FirstDataRow));
    for i := 0 to |entries|
      invariant sheet.cells == Apply(m0, done)
      invariant TransferWrites(entries, config, FirstDataRow)
                == Chain(Ok(done), TransferWrites(entries[i..], config, xlsxRow))
    {
      assert entries[i..][0] == entries[i] && entries[i..][1..] == entries[i + 1..];
      var titleHasWrote := false;
      if IsDocx(entries[i].name) {
        var table := LocateTable(entries[i].tables);
        if table == None {
          return Aborted(TableNotFound(entries[i].name));
        }
        ghost var before := sheet.cells;
        var failure := TransferDocument(table.value, config, xlsxRowTitle, xlsxRow, titleHasWrote, sheet);
        if failure.Some? {
          return Aborted(failure.value);
        }
        ghost var doc := DocumentWrites(table.value, config, xlsxRow, true).value;
        ApplyAppend(m0, done, doc);
        ChainAssociative(Ok(done), Ok(doc), TransferWrites(entries[i + 1..], config, xlsxRow + 1));
        done := done + doc;
        xlsxRow := xlsxRow + 1;
        if !titleHasWrote {
          titleHasWrote := true;
        }
      }
    }
    assert entries[|entries|..] == [];
    assert done + [] == done;
    return Completed;
  }

  /** The loop over the sections for one document. */
  method TransferDocument(t: Table, config: seq<Section>, xlsxRowTitle: int, xlsxRow: int, titleHasWrote: bool, sheet: Worksheet)
    returns (failure: Option<Failure>)
    requires xlsxRowTitle == TitleRow
    modifies sheet
    ensures match DocumentWrites(t, config, xlsxRow, !titleHasWrote)
            case Ok(writes) => failure == None && sheet.cells == Apply(old(sheet.cells), writes)
            case Err(f) => failure == Some(f)
  {
    ghost var done: seq<Write> := [];
    ghost var m0 := sheet.cells;
    assert config[0..] == config;
    ChainOkEmpty(DocumentWrites(t, config, xlsxRow, !titleHasWrote));
    for j := 0 to |config|
      invariant sheet.cells == Apply(m0, done)
      invariant DocumentWrites(t, config, xlsxRow, !titleHasWrote)
                == Chain(Ok(done), DocumentWrites(t, config[j..], xlsxRow, !titleHasWrote))
    {
      assert config[j..][0] == config[j] && config[j..][1..] == config[j + 1..];
      var f := TransferSection(t, config[j], xlsxRowTitle, xlsxRow, titleHasWrote, sheet);
      if f.Some? {
        return f;
      }
      ghost var w := SectionWrites(t, config[j], xlsxRow, !titleHasWrote).value;
      ApplyAppend(m0, done, w);
      ChainAssociative(Ok(done), Ok(w), DocumentWrites(t, config[j + 1..], xlsxRow, !titleHasWrote));
      done := done + w;
    }
    assert config[|config|..] == [];
    assert done + [] == done;
    return None;
  }

  /** One section: parse its ranges, then write the labels (unless the header is
      already written) and the values. */
  method TransferSection(t: Table, s: Section, xlsxRowTitle: int, xlsxRow: int, titleHasWrote: bool, sheet: Worksheet)
    returns (failure: Option<Failure>)
    requires xlsxRowTitle == TitleRow
    modifies sheet
    ensures match SectionWrites(t, s, xlsxRow, !titleHasWrote)
            case Ok(writes) => failure == None && sheet.cells == Apply(old(sheet.cells), writes)
            case Err(f) => failure == Some(f) && sheet.cells == old(sheet.cells)
  {
    var cols := ParseRange(s.col, -1);
    if cols.Err? {
      return Some(BadRange(cols.error));
    }
    if cols.value == [] {
      return Some(EmptyColumns);
    }
    var end := cols.value[|cols.value| - 1];
    var keys := ParseRange(s.key, end);
    if keys.Err? {
      return Some(BadRange(keys.error));
    }
    var vals := ParseRange(s.val, end);
    if vals.Err? {
      return Some(BadRange(vals.error));
    }
    if !titleHasWrote {
      WriteTitles(t, s.row, keys.value, s.colStart, xlsxRowTitle, sheet);
    }
    WriteValues(t, s.row, vals.value, s.colStart, xlsxRow, sheet);
    ApplyAppend(old(sheet.cells), if titleHasWrote then [] else TitleWrites(t, s.row, keys.value, s.colStart),
                ValueWrites(t, s.row, vals.value, s.colStart, xlsxRow));
    return None;
  }

  /** The header loop of a section: the clean text of each key column. */
  method WriteTitles(t: Table, row: int, keys: seq<int>, colStart: int, xlsxRowTitle: int, sheet: Worksheet)
    requires xlsxRowTitle == TitleRow
    modifies sheet
    ensures sheet.cells == Apply(old(sheet.cells), TitleWrites(t, row, keys, colStart))
  {
    ghost var titles := TitleWrites(t, row, keys, colStart);
    var xlsxCol := colStart;
    for k := 0 to |keys|
      invariant xlsxCol == colStart + k
      invariant sheet.cells == Apply(old(sheet.cells), titles[..k])
    {
      var txt := CleanText(t.cell(row, keys[k]));
      sheet.Write(xlsxRowTitle, xlsxCol, txt);
      assert titles[..k + 1] == titles[..k] + [titles[k]];
      ApplySnoc(old(sheet.cells), titles[..k], titles[k]);
      xlsxCol := xlsxCol + 1;
    }
    assert titles[..|keys|] == titles;
  }

  /** The value loop of a section: the raw text of each value column. */
  method WriteValues(t: Table, row: int, vals: seq<int>, colStart: int, xlsxRow: int, sheet: Worksheet)
    modifies sheet
    ensures sheet.cells == Apply(old(sheet.cells), ValueWrites(t, row, vals, colStart, xlsxRow))
  {
    ghost var values := ValueWrites(t, row, vals, colStart, xlsxRow);
    var xlsxCol := colStart;
    for k := 0 to |vals|
      invariant xlsxCol == colStart + k
      invariant sheet.cells == Apply(old(sheet.cells), values[..k])
    {
      var txt := t.cell(row, vals[k]);
      sheet.Write(xlsxRow, xlsxCol, txt);
      assert values[..k + 1] == values[..k] + [values[k]];
      ApplySnoc(old(sheet.cells), values[..k], values[k]);
      xlsxCol := xlsxCol + 1;
    }
    assert values[..|vals|] == values;
  }
}
