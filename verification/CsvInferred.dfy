/** Reading back a table written as CSV with no hint: what type each column comes back as, and that it says what was written. */
module CsvInferred {
  import opened Prelude
  import opened Text
  import opened Table
  import opened CsvLine
  import opened Csv
  import opened CsvTable
  import opened CsvWritten
  import opened CsvRoundTrip

  /** Some row of the column is written as something. */
  ghost predicate Speaks(w: Writable, rows: nat)
    requires Fits(w, rows)
  {
    exists row :: 0 <= row < rows && Raw(w, row, rows) != []
  }

  /** Some row is written as a text that is no number. */
  ghost predicate SpeaksText(w: Writable, rows: nat, f: Floats)
    requires Fits(w, rows)
  {
    exists row :: 0 <= row < rows && Raw(w, row, rows) != [] && NoNumber(Raw(w, row, rows), f)
  }

  /** A column of texts comes back as texts exactly when one of them is no number, or none of them is there. */
  lemma {:induction false} TextStaysExactly(w: Writable, rows: nat, f: Floats)
    requires Fits(w, rows)
    ensures Infer(RawColumn(w, rows), f) == AsText <==> !Speaks(w, rows) || SpeaksText(w, rows, f)
  {
    hide Raw, NoNumber, Fits;
    var cells := RawColumn(w, rows);
    InferExactly(cells, f);
    assert forall row :: 0 <= row < rows ==> cells[row] == Raw(w, row, rows) && cells[row] in cells;
    assert forall c :: c in cells ==> exists row :: 0 <= row < rows && cells[row] == c;
  }

  /** A column of integers comes back as integers exactly when it holds one. */
  lemma {:induction false} IntsStayExactly(w: Writable, rows: nat, f: Floats)
    requires Fits(w, rows) && w.column.Ints?
    ensures Infer(RawColumn(w, rows), f) == if Speaks(w, rows) then AsInt else AsText
  {
    var cells := RawColumn(w, rows);
    InferExactly(cells, f);
    hide ShowInt, ParseInt;
    forall c | c in cells && c != []
      ensures IsInteger(c)
    {
      var row :| 0 <= row < rows && cells[row] == c;
      ParseShows(w.column.values[row]);
      IntegerExactly(c);
    }
    assert forall row :: 0 <= row < rows ==> cells[row] == Raw(w, row, rows) && cells[row] in cells;
    assert forall c :: c in cells ==> exists row :: 0 <= row < rows && cells[row] == c;
  }

  /** What a column is read as when nothing says otherwise. */
  ghost predicate Recovers(d: Decoded, w: Writable, rows: nat)
    requires Fits(w, rows)
  {
    && d.name == w.name && |d.column.values| == rows
    && (if w.column.Ints? && Speaks(w, rows) then d.column.Ints? else d.column.Texts?)
    && forall row :: 0 <= row < rows ==>
      && (d.column.Texts? && !IsNull(d, row) ==> 0 <= d.column.values[row] < |d.column.uniques|)
      && Shown(d, row) == ReadAs(Written(w, row, rows))
  }

  /** An integer column, a text column with a text that is no number, or a column of nulls. */
  ghost predicate Tells(w: Writable, rows: nat, f: Floats)
    requires Fits(w, rows)
  {
    w.column.Ints? || SpeaksText(w, rows, f) || !Speaks(w, rows)
  }

  ghost predicate AllTell(columns: seq<Writable>, rows: nat, f: Floats)
    requires AllFit(columns, rows)
  {
    forall i :: 0 <= i < |columns| ==> Tells(columns[i], rows, f)
  }

  lemma {:induction false} ColumnRecovers(w: Writable, rows: nat, f: Floats)
    requires Fits(w, rows) && Tells(w, rows, f)
    ensures var cells := RawColumn(w, rows);
      var r := ColumnOf(w.name, cells, Infer(cells, f), f);
      r.Ok? && Recovers(r.value, w, rows)
  {
    var cells := RawColumn(w, rows);
    var dtype := Infer(cells, f);
    TextStaysExactly(w, rows, f);
    if w.column.Ints? {
      IntsStayExactly(w, rows, f);
    }
    hide Infer, ColumnOf;
    assert dtype == if w.column.Ints? && Speaks(w, rows) then AsInt else AsText;
    forall row | 0 <= row < rows
      ensures Meaning(cells[row], dtype, f) == Some(ReadAs(Written(w, row, rows)))
    {
      CellMeans(w, row, rows, dtype, f);
    }
    hide Meaning, Raw, Written;
    ColumnSays(w.name, cells, dtype, f);
  }

  lemma CellMeans(w: Writable, row: nat, rows: nat, dtype: Dtype, f: Floats)
    requires Fits(w, rows) && row < rows && dtype == if w.column.Ints? && Speaks(w, rows) then AsInt else AsText
    ensures Meaning(Raw(w, row, rows), dtype, f) == Some(ReadAs(Written(w, row, rows)))
  {
    RawMeans(w, row, rows, f);
    hide ParseInt, ShowInt;
    if w.column.Ints? && !WrittenNull(w, row) {
      ParseShows(w.column.values[row]);
      assert Raw(w, row, rows) != [];
    }
  }

  /** Each column with no hint is read from its own cells, as what they look like. */
  lemma {:induction false} ColumnsInferred(lines: seq<seq<string>>, names: seq<string>, i: nat, f: Floats)
    requires i <= |names|
    requires forall k :: i <= k < |names| ==> ColumnOf(names[k], CellsOf(lines, k), Infer(CellsOf(lines, k), f), f).Ok?
    ensures var r := ColumnsFrom(lines, names, i, map[], f);
      && r.Ok? && |r.value| == |names| - i
      && forall k :: i <= k < |names| ==> ColumnOf(names[k], CellsOf(lines, k), Infer(CellsOf(lines, k), f), f) == Ok(r.value[k - i])
    decreases |names| - i
  {
    hide ColumnOf, Infer, CellsOf;
    if i < |names| {
      ColumnsInferred(lines, names, i + 1, f);
      var rest := ColumnsFrom(lines, names, i + 1, map[], f).value;
      var first := ColumnOf(names[i], CellsOf(lines, i), Infer(CellsOf(lines, i), f), f).value;
      assert ColumnsFrom(lines, names, i, map[], f) == Ok([first] + rest);
    }
  }

  /**
   With no hint, and as far as its lines come back, a table comes back with every name,
   row and null: integers as integers where one is there, texts as texts where one is
   no number, and a column of nulls as text.
   */
  lemma {:induction false} TableRecovers(columns: seq<Writable>, rows: nat, d: char, f: Floats)
    requires columns != [] && AllFit(columns, rows) && Feedless(columns, rows) && NoEndTrimmed(columns, rows, d)
    requires Parts(columns, d) && HeaderKept(columns, d) && NoRowLost(columns, rows, d) && NoIntegerCut(columns, rows, d)
    requires AllTell(columns, rows, f)
    ensures var text := TableText(columns, true, d, f);
      && text.Ok?
      && var r := TableFrom(text.value, map[], true, d, f);
        && r.Ok? && r.value.0 == rows && |r.value.1| == |columns|
        && forall i :: 0 <= i < |columns| ==> Recovers(r.value.1[i], columns[i], rows)
  {
    ReadAsLines(columns, rows, map[], d, f);
    RowsRecover(columns, rows, d, f);
    hide TableText, TableFrom, RowLines, NoEndTrimmed, NoIntegerCut, Fits, Recovers, Feedless, NoRowLost, HeaderKept, Parts, AllTell;
  }

  /** One column's cells, as they are split from the rows' lines, and what it is read as. */
  ghost predicate CellsRecover(w: Writable, split: seq<seq<string>>, i: nat, rows: nat, f: Floats)
    requires Fits(w, rows)
  {
    var c := ColumnOf(w.name, CellsOf(split, i), Infer(CellsOf(split, i), f), f);
    c.Ok? && Recovers(c.value, w, rows)
  }

  lemma {:induction false} CellsAreBack(columns: seq<Writable>, rows: nat, d: char, f: Floats, i: nat)
    requires columns != [] && AllFit(columns, rows) && NoEndTrimmed(columns, rows, d) && NoIntegerCut(columns, rows, d)
    requires Parts(columns, d) && AllTell(columns, rows, f) && i < |columns|
    ensures CellsRecover(columns[i], SplitAll(RowLines(columns, rows, d), d), i, rows, f)
  {
    hide Fits, Raw, NoEndTrimmed, NoIntegerCut, RowLines, Recovers, ColumnOf, Infer, Tells, CellsOf;
    CellsRead(columns, rows, d, i);
    ColumnRecovers(columns[i], rows, f);
  }

  lemma {:induction false} RowsRecover(columns: seq<Writable>, rows: nat, d: char, f: Floats)
    requires columns != [] && AllFit(columns, rows) && NoEndTrimmed(columns, rows, d) && NoIntegerCut(columns, rows, d)
    requires Parts(columns, d) && AllTell(columns, rows, f)
    ensures var r := RowsFrom(RowLines(columns, rows, d), Names(columns), map[], d, f);
      && r.Ok? && r.value.0 == rows && |r.value.1| == |columns|
      && forall i :: 0 <= i < |columns| ==> Recovers(r.value.1[i], columns[i], rows)
  {
    var split := SplitAll(RowLines(columns, rows, d), d);
    forall i | 0 <= i < |columns|
      ensures CellsRecover(columns[i], split, i, rows, f)
    {
      CellsAreBack(columns, rows, d, f, i);
    }
    hide RowLines, NoEndTrimmed, NoIntegerCut, Fits, Recovers, CellsRecover, Parts, AllTell, ColumnsFrom, Names, SplitAll;
    ColumnsRecover(columns, split, rows, f);
  }

  lemma {:induction false} ColumnsRecover(columns: seq<Writable>, split: seq<seq<string>>, rows: nat, f: Floats)
    requires AllFit(columns, rows) && forall i :: 0 <= i < |columns| ==> CellsRecover(columns[i], split, i, rows, f)
    ensures var r := ColumnsFrom(split, Names(columns), 0, map[], f);
      && r.Ok? && |r.value| == |columns|
      && forall i :: 0 <= i < |columns| ==> Recovers(r.value[i], columns[i], rows)
  {
    hide Fits, Recovers, ColumnOf, Infer, CellsOf, ColumnsFrom;
    ColumnsInferred(split, Names(columns), 0, f);
  }

  // ----- any text at all -----

  /** The type a column is read as: its hint's, or what it looks like. */
  lemma {:induction false} ColumnRead(lines: seq<seq<string>>, names: seq<string>, i: nat, hints: map<string, string>, f: Floats, k: nat)
    requires i <= k < |names| && ColumnsFrom(lines, names, i, hints, f).Ok?
    ensures var r := ColumnsFrom(lines, names, i, hints, f).value;
      && |r| == |names| - i && DtypeOf(names[k], CellsOf(lines, k), hints, f).Ok?
      && ColumnOf(names[k], CellsOf(lines, k), DtypeOf(names[k], CellsOf(lines, k), hints, f).value, f) == Ok(r[k - i])
    decreases |names| - i
  {
    hide ColumnOf, DtypeOf;
    ColumnCount(lines, names, i, hints, f);
    if i < k {
      ColumnRead(lines, names, i + 1, hints, f, k);
    }
  }

  /** What hints may say, and what they are taken for. */
  ghost predicate ReadAsType(name: string, hints: map<string, string>, cells: seq<string>, f: Floats, dtype: Dtype) {
    if name !in hints then dtype == Infer(cells, f)
    else match dtype
      case AsDouble => hints[name] == "f64"
      case AsInt => hints[name] == "i64"
      case AsText => hints[name] == "str"
  }

  /** A row's cell in a column; a short row has nothing there. */
  function CellAt(line: string, delimiter: char, i: nat): string {
    var fields := Split(line, delimiter);
    if i < |fields| then fields[i] else []
  }

  /** Slot `row` of a column says what this cell means as the type it was read as. */
  ghost predicate SaysCell(d: Decoded, row: nat, cell: string, dtype: Dtype, f: Floats) {
    && row < |d.column.values| && (d.column.Texts? && !IsNull(d, row) ==> 0 <= d.column.values[row] < |d.column.uniques|)
    && Meaning(cell, dtype, f) == Some(Shown(d, row))
    && (cell == [] ==> d.column.values[row] == if dtype == AsDouble then 0x7ff8_0000_0000_0000 else 0)
  }

  ghost predicate ReadsColumn(d: Decoded, name: string, lines: seq<string>, i: nat, hints: map<string, string>, delimiter: char, f: Floats) {
    && d.name == name && |d.column.values| == |lines|
    && exists dtype :: ReadAsType(name, hints, CellsOf(SplitAll(lines, delimiter), i), f, dtype)
         && forall row :: 0 <= row < |lines| ==> SaysCell(d, row, CellAt(lines[row], delimiter, i), dtype, f)
  }

  /**
   Whatever text is read: one row for each line that holds something, the header's
   not among them; one column for each field of the first line, under its name there,
   or under its number; every row says what its cell means.
   */
  lemma {:induction false} TableReads(text: string, hints: map<string, string>, header: bool, delimiter: char, f: Floats)
    requires TableFrom(text, hints, header, delimiter, f).Ok?
    ensures var lines, r := Filled(Lines(text)), TableFrom(text, hints, header, delimiter, f).value;
      if lines == [] then r == (0, []) else
        var first, body := Split(lines[0], delimiter), if header then lines[1..] else lines;
        && r.0 == |body| && |r.1| == |first|
        && forall i :: 0 <= i < |first| ==>
             ReadsColumn(r.1[i], if header then first[i] else "c" + Decimal(i), body, i, hints, delimiter, f)
  {
    hide Split, ReadsColumn, ColumnsFrom;
    var lines := Filled(Lines(text));
    if lines != [] {
      var first, body := Split(lines[0], delimiter), if header then lines[1..] else lines;
      var names := if header then first else seq(|first|, i requires 0 <= i < |first| => "c" + Decimal(i));
      RowsCounted(body, names, hints, delimiter, f);
      forall i | 0 <= i < |first|
        ensures ReadsColumn(TableFrom(text, hints, header, delimiter, f).value.1[i], names[i], body, i, hints, delimiter, f)
      {
        ColumnReads(body, names, i, hints, delimiter, f);
      }
    }
  }

  lemma {:induction false} ColumnReads(lines: seq<string>, names: seq<string>, i: nat, hints: map<string, string>, delimiter: char, f: Floats)
    requires i < |names| && RowsFrom(lines, names, hints, delimiter, f).Ok?
    ensures var r := RowsFrom(lines, names, hints, delimiter, f).value.1;
      i < |r| && ReadsColumn(r[i], names[i], lines, i, hints, delimiter, f)
  {
    hide ColumnOf, DtypeOf, Meaning, Split, Infer, ReadAsType, Says, SaysCell, ColumnsFrom;
    var split := SplitAll(lines, delimiter);
    var cells := CellsOf(split, i);
    ColumnRead(split, names, 0, hints, f, i);
    var dtype := DtypeOf(names[i], cells, hints, f).value;
    TypeIsRead(names[i], hints, cells, f);
    ColumnSays(names[i], cells, dtype, f);
    RowsSay(RowsFrom(lines, names, hints, delimiter, f).value.1[i], lines, i, delimiter, dtype, f);
  }

  lemma TypeIsRead(name: string, hints: map<string, string>, cells: seq<string>, f: Floats)
    ensures DtypeOf(name, cells, hints, f).Ok? ==> ReadAsType(name, hints, cells, f, DtypeOf(name, cells, hints, f).value)
  {
  }

  lemma {:induction false} RowsSay(d: Decoded, lines: seq<string>, i: nat, delimiter: char, dtype: Dtype, f: Floats)
    requires Says(d, CellsOf(SplitAll(lines, delimiter), i), dtype, f)
    ensures |d.column.values| == |lines|
    ensures forall row :: 0 <= row < |lines| ==> SaysCell(d, row, CellAt(lines[row], delimiter, i), dtype, f)
  {
    hide Meaning, Split;
    var cells := CellsOf(SplitAll(lines, delimiter), i);
    forall row | 0 <= row < |lines|
      ensures SaysCell(d, row, CellAt(lines[row], delimiter, i), dtype, f)
    {
      SplitAllAt(lines, delimiter, row);
      assert cells[row] == CellAt(lines[row], delimiter, i);
    }
  }

  // ----- what is written at all -----

  /** A row whose code names no text. */
  predicate NoText(w: Writable, row: nat)
    requires row < |w.column.values|
  {
    w.column.Texts? && !WrittenNull(w, row) && !(0 <= w.column.values[row] < |w.column.uniques|)
  }

  /** The row's error is that of its first column with no text for it. */
  lemma {:induction false} RowExactly(columns: seq<Writable>, row: nat, rows: nat, delimiter: char, f: Floats)
    requires SameRows(columns, rows) && row < rows
    ensures var r := FieldTexts(columns, row, rows, delimiter, f);
      && (r.Ok? <==> forall i :: 0 <= i < |columns| ==> !NoText(columns[i], row))
      && (r.Err? ==> exists i :: 0 <= i < |columns| && NoText(columns[i], row)
                       && (forall k :: 0 <= k < i ==> !NoText(columns[k], row))
                       && r.error == NoCode(columns[i].name, row, columns[i].column.values[row]))
  {
    if columns != [] {
      hide Quoted, ShowInt;
      RowExactly(columns[1..], row, rows, delimiter, f);
      assert forall i :: 0 <= i < |columns| - 1 ==> columns[1..][i] == columns[i + 1];
      var r := FieldTexts(columns[1..], row, rows, delimiter, f);
      if !NoText(columns[0], row) && r.Err? {
        var i :| 0 <= i < |columns[1..]| && NoText(columns[1..][i], row) && (forall k :: 0 <= k < i ==> !NoText(columns[1..][k], row))
                 && r.error == NoCode(columns[1..][i].name, row, columns[1..][i].column.values[row]);
        assert NoText(columns[i + 1], row);
        forall k | 0 <= k < i + 1
          ensures !NoText(columns[k], row)
        {
          if k > 0 {
            assert columns[1..][k - 1] == columns[k];
          }
        }
      }
    }
  }

  /** The error names a column, a row of it and the code there that names no text. */
  ghost predicate Uncodes(columns: seq<Writable>, e: CsvError) {
    e.NoCode? && exists i :: 0 <= i < |columns| && UncodedAt(columns[i], e.row) && e == NoCode(columns[i].name, e.row, columns[i].column.values[e.row])
  }

  predicate UncodedAt(w: Writable, row: nat) {
    row < |w.column.values| && NoText(w, row)
  }

  lemma {:induction false} RowsExactly(columns: seq<Writable>, row: nat, rows: nat, delimiter: char, f: Floats)
    requires SameRows(columns, rows) && row <= rows
    ensures var r := RowTexts(columns, row, rows, delimiter, f);
      && (r.Ok? <==> forall i, k :: 0 <= i < |columns| && row <= k < rows ==> !NoText(columns[i], k))
      && (r.Err? ==> Uncodes(columns, r.error))
    decreases rows - row
  {
    hide FieldTexts, Join, NoText;
    if row < rows {
      RowExactly(columns, row, rows, delimiter, f);
      assert forall i :: 0 <= i < |columns| && NoText(columns[i], row) ==> UncodedAt(columns[i], row);
      RowsExactly(columns, row + 1, rows, delimiter, f);
    }
  }

  /** A table is written exactly when its columns are equally long and every code names a text; else the error says which does not. */
  lemma {:induction false} WrittenExactly(columns: seq<Writable>, header: bool, delimiter: char, f: Floats)
    ensures var r, rows := TableText(columns, header, delimiter, f), if columns == [] then 0 else |columns[0].column.values|;
      && (r.Ok? <==> (forall i :: 0 <= i < |columns| ==> |columns[i].column.values| == rows)
                     && forall i, k :: 0 <= i < |columns| && 0 <= k < |columns[i].column.values| ==> !NoText(columns[i], k))
      && (r.Err? && r.error.RowsDiffer? ==> exists i :: 0 <= i < |columns| && columns[i].name == r.error.name && |columns[i].column.values| != rows)
      && (r.Err? && !r.error.RowsDiffer? ==> Uncodes(columns, r.error))
  {
    hide RowTexts, Join, QuotedAll, NoText;
    var rows := RowsOf(columns);
    OddIs(columns, rows);
    if SameRows(columns, rows) {
      RowsExactly(columns, 0, rows, delimiter, f);
    }
  }

  lemma {:induction false} OddIs(columns: seq<Writable>, rows: nat)
    ensures var odd := FirstOdd(columns, rows);
      odd.Some? ==> exists i :: 0 <= i < |columns| && columns[i].name == odd.value && |columns[i].column.values| != rows
  {
    if columns != [] && |columns[0].column.values| == rows && FirstOdd(columns, rows).Some? {
      OddIs(columns[1..], rows);
      var i :| 0 <= i < |columns[1..]| && columns[1..][i].name == FirstOdd(columns, rows).value && |columns[1..][i].column.values| != rows;
      assert columns[i + 1] == columns[1..][i];
    }
  }

  /** With a header a table is written as without, after a line of its names. */
  lemma HeaderGoesFirst(columns: seq<Writable>, delimiter: char, f: Floats)
    ensures var with, without := TableText(columns, true, delimiter, f), TableText(columns, false, delimiter, f);
      && (with.Ok? <==> without.Ok?) && (with.Err? ==> with == without)
      && (with.Ok? ==> with.value == Join(QuotedAll(Names(columns), delimiter), delimiter) + "\n" + without.value)
      && (columns == [] ==> without == Ok([]))
  {
    hide RowTexts, Join, QuotedAll;
    if columns == [] {
      NoRows(delimiter, f);
    }
  }

  lemma NoRows(delimiter: char, f: Floats)
    ensures RowTexts([], 0, 0, delimiter, f) == Ok([])
  {
  }
}
