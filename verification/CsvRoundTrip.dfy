/** Reading back a table written as CSV, under every delimiter. */
module CsvRoundTrip {
  import opened Prelude
  import opened Text
  import opened Table
  import opened CsvLine
  import opened Csv
  import opened CsvTable
  import opened CsvWritten

  // ----- cells -----

  /** What a written row reads as: an empty text is all a CSV has for a null. */
  function ReadAs(cell: Cell): Cell {
    if cell == Str([]) then Null else cell
  }

  ghost function Written(w: Writable, row: nat, rows: nat): Cell
    requires Fits(w, rows) && row < rows
  {
    CellOf(w.column, row, WrittenNull(w, row))
  }

  ghost predicate Hinted(w: Writable, hints: map<string, string>) {
    w.name in hints && hints[w.name] == if w.column.Ints? then "i64" else "str"
  }

  ghost predicate AllHinted(columns: seq<Writable>, hints: map<string, string>) {
    forall i :: 0 <= i < |columns| ==> Hinted(columns[i], hints)
  }

  function DtypeFor(w: Writable): Dtype {
    if w.column.Ints? then AsInt else AsText
  }

  /** A decoded column says what was written. */
  ghost predicate ReadsBack(d: Decoded, w: Writable, rows: nat)
    requires Fits(w, rows)
  {
    && d.name == w.name && |d.column.values| == rows
    && (d.column.Ints? <==> w.column.Ints?) && (d.column.Texts? <==> w.column.Texts?)
    && forall row :: 0 <= row < rows ==>
      && (d.column.Texts? && !IsNull(d, row) ==> 0 <= d.column.values[row] < |d.column.uniques|)
      && Shown(d, row) == ReadAs(Written(w, row, rows))
  }

  lemma RawMeans(w: Writable, row: nat, rows: nat, f: Floats)
    requires Fits(w, rows) && row < rows
    ensures Meaning(Raw(w, row, rows), DtypeFor(w), f) == Some(ReadAs(Written(w, row, rows)))
  {
    hide ParseInt, ShowInt;
    if !WrittenNull(w, row) && w.column.Ints? {
      ParseShows(w.column.values[row]);
    }
  }

  ghost function RawColumn(w: Writable, rows: nat): (cells: seq<string>)
    requires Fits(w, rows)
    ensures |cells| == rows
  {
    seq(rows, row requires 0 <= row < rows => Raw(w, row, rows))
  }

  lemma {:induction false} ColumnReadsBack(w: Writable, rows: nat, f: Floats)
    requires Fits(w, rows)
    ensures var r := ColumnOf(w.name, RawColumn(w, rows), DtypeFor(w), f);
      r.Ok? && ReadsBack(r.value, w, rows)
  {
    hide Meaning, ColumnOf, Raw;
    var cells := RawColumn(w, rows);
    forall row | 0 <= row < rows
      ensures Meaning(cells[row], DtypeFor(w), f) == Some(ReadAs(Written(w, row, rows)))
    {
      RawMeans(w, row, rows, f);
    }
    ColumnSays(w.name, cells, DtypeFor(w), f);
  }

  lemma HintSays(columns: seq<Writable>, i: nat, cells: seq<string>, hints: map<string, string>, f: Floats)
    requires i < |columns| && Hinted(columns[i], hints)
    ensures DtypeOf(Names(columns)[i], cells, hints, f) == Ok(DtypeFor(columns[i]))
  {
  }

  /** A hinted column is read from its own cells. */
  function ColumnAt(w: Writable, lines: seq<seq<string>>, k: nat, f: Floats): Result<Decoded, CsvError> {
    ColumnOf(w.name, CellsOf(lines, k), DtypeFor(w), f)
  }

  lemma {:induction false} ColumnsStep(columns: seq<Writable>, lines: seq<seq<string>>, i: nat, hints: map<string, string>, f: Floats)
    requires i < |columns| && Hinted(columns[i], hints)
    ensures var rest := ColumnsFrom(lines, Names(columns), i + 1, hints, f);
      var first := ColumnAt(columns[i], lines, i, f);
      var all := ColumnsFrom(lines, Names(columns), i, hints, f);
      && (all.Ok? <==> first.Ok? && rest.Ok?)
      && (all.Ok? ==> all.value == [first.value] + rest.value)
  {
    HintSays(columns, i, CellsOf(lines, i), hints, f);
    hide ColumnOf, DtypeOf, Hinted;
  }

  lemma {:induction false} ColumnsOk(columns: seq<Writable>, lines: seq<seq<string>>, i: nat, hints: map<string, string>, f: Floats)
    requires i <= |columns| && AllHinted(columns, hints)
    requires forall k :: i <= k < |columns| ==> ColumnAt(columns[k], lines, k, f).Ok?
    ensures ColumnsFrom(lines, Names(columns), i, hints, f).Ok?
    decreases |columns| - i
  {
    hide ColumnOf, DtypeOf, Hinted, ColumnAt, CellsOf, Names, AllHinted;
    if i < |columns| {
      HintedAt(columns, hints, i);
      ColumnsStep(columns, lines, i, hints, f);
      ColumnsOk(columns, lines, i + 1, hints, f);
    }
  }

  lemma {:induction false} ColumnIs(columns: seq<Writable>, lines: seq<seq<string>>, i: nat, hints: map<string, string>, f: Floats, k: nat)
    requires i <= k < |columns| && AllHinted(columns, hints)
    requires ColumnsFrom(lines, Names(columns), i, hints, f).Ok?
    ensures var r := ColumnsFrom(lines, Names(columns), i, hints, f).value;
      |r| == |columns| - i && ColumnAt(columns[k], lines, k, f) == Ok(r[k - i])
    decreases |columns| - i
  {
    hide ColumnOf, DtypeOf, AllHinted, Hinted, ColumnAt, ColumnsFrom, CellsOf, Names;
    HintedAt(columns, hints, i);
    ColumnCount(lines, Names(columns), i, hints, f);
    ColumnsStep(columns, lines, i, hints, f);
    var first, rest := ColumnAt(columns[i], lines, i, f).value, ColumnsFrom(lines, Names(columns), i + 1, hints, f).value;
    if i < k {
      ColumnIs(columns, lines, i + 1, hints, f, k);
      Behind(first, rest, k - i - 1);
    } else {
      assert ([first] + rest)[0] == first;
    }
  }

  lemma Behind<T>(first: T, rest: seq<T>, j: nat)
    requires j < |rest|
    ensures ([first] + rest)[j + 1] == rest[j]
  {
  }

  lemma HintedAt(columns: seq<Writable>, hints: map<string, string>, i: nat)
    requires AllHinted(columns, hints) && i < |columns|
    ensures Hinted(columns[i], hints)
  {
  }

  lemma {:induction false} ColumnCount(lines: seq<seq<string>>, names: seq<string>, i: nat, hints: map<string, string>, f: Floats)
    requires i <= |names|
    ensures var r := ColumnsFrom(lines, names, i, hints, f);
      r.Ok? ==> |r.value| == |names| - i
    decreases |names| - i
  {
    hide ColumnOf, DtypeOf;
    if i < |names| {
      ColumnCount(lines, names, i + 1, hints, f);
    }
  }

  // ----- an integer cut short -----

  lemma {:induction false} DecimalCut(n: nat, k: nat)
    requires 0 < k < |Decimal(n)|
    ensures DecimalValue(Decimal(n)[..k]).Some? && DecimalValue(Decimal(n)[..k]).value < n
  {
    var front := Decimal(n / 10);
    assert Decimal(n)[..|front|] == front;
    if k == |front| {
      DecimalReads(n / 10);
    } else {
      assert Decimal(n)[..k] == front[..k];
      DecimalCut(n / 10, k);
    }
  }

  /** No number begins with itself and goes on. */
  lemma {:induction false} CutMeansOther(v: int, cell: string, f: Floats)
    requires cell <= ShowInt(v) && |cell| < |ShowInt(v)|
    ensures Meaning(cell, AsInt, f) != Some(Int(v))
  {
    ParseShows(v);
    if cell != [] {
      assert cell[0] == ShowInt(v)[0];
      if v < 0 {
        assert cell[1..] == Decimal(-v)[..|cell| - 1];
        if |cell| > 1 {
          DecimalCut(-v, |cell| - 1);
        }
      } else {
        assert cell == Decimal(v)[..|cell|];
        DecimalCut(v, |cell|);
      }
    }
  }

  // ----- reading back -----

  /** Reading what was written gives every name, every row and every null. */
  ghost predicate Back(columns: seq<Writable>, rows: nat, hints: map<string, string>, d: char, f: Floats)
    requires AllFit(columns, rows)
  {
    var text := TableText(columns, true, d, f);
    && text.Ok?
    && var r := TableFrom(text.value, hints, true, d, f);
      && r.Ok? && r.value.0 == rows && |r.value.1| == |columns|
      && forall i :: 0 <= i < |columns| ==> ReadsBack(r.value.1[i], columns[i], rows)
  }

  /** The names' line comes back whole. */
  predicate HeaderKept(columns: seq<Writable>, d: char)
    requires columns != []
  {
    |columns| == 1 || d == '\r' ==> columns[|columns| - 1].name != []
  }

  ghost predicate NoRowLost(columns: seq<Writable>, rows: nat, d: char)
    requires AllFit(columns, rows)
  {
    forall row :: 0 <= row < rows ==> !Lost(Raws(columns, row, rows), d)
  }

  ghost predicate NoIntegerCut(columns: seq<Writable>, rows: nat, d: char)
    requires AllFit(columns, rows)
  {
    forall i, row :: 0 <= i < |columns| && 0 <= row < rows ==> Apart(columns[i], row, rows, d)
  }

  /** Nothing at the end of a line, and not quoted, ends in a carriage return. */
  ghost predicate NoEndTrimmed(columns: seq<Writable>, rows: nat, d: char)
    requires columns != [] && AllFit(columns, rows)
  {
    && !EndsCr(Quoted(columns[|columns| - 1].name, d))
    && forall row :: 0 <= row < rows ==> !EndTrimmed(columns, row, rows, d)
  }

  ghost predicate EndTrimmed(columns: seq<Writable>, row: nat, rows: nat, d: char)
    requires columns != [] && AllFit(columns, rows) && row < rows
  {
    EndsCr(Out(columns[|columns| - 1], row, rows, d))
  }

  ghost function RowLines(columns: seq<Writable>, rows: nat, d: char): (r: seq<string>)
    requires AllFit(columns, rows)
    ensures |r| == rows
  {
    Stripped(OutLines(columns, 0, rows, d))
  }

  lemma {:induction false} HeaderReads(columns: seq<Writable>, d: char)
    requires columns != [] && Parts(columns, d) && !EndsCr(Quoted(columns[|columns| - 1].name, d))
    ensures Split(StripCr(Header(columns, d)), d) == Kept(Names(columns), d)
    ensures StripCr(Header(columns, d)) == [] <==> Lost(Names(columns), d)
    ensures HeaderKept(columns, d) <==> !Lost(Names(columns), d) && Kept(Names(columns), d) == Names(columns)
  {
    var names := Names(columns);
    LineReads(names, d);
    hide Join, StripCr, Quoted, QuotedAll, Split;
    QuotedAllAt(names, d, |names| - 1);
    LostLine(QuotedAll(names, d), d);
    NamesLost(names, d);
    assert names == [[]] <==> |columns| == 1 && columns[0].name == [];
    assert names == [[], []] ==> Shortens(names, '\r');
  }

  lemma NamesLost(names: seq<string>, d: char)
    ensures Lost(QuotedAll(names, d), d) <==> Lost(names, d)
  {
    hide QuotedAll, Quoted;
    forall i | 0 <= i < |names|
      ensures QuotedAll(names, d)[i] == [] <==> names[i] == []
    {
      QuotedAllAt(names, d, i);
      QuotedEmpty(names[i], d);
    }
  }

  lemma {:induction false} RowsLost(columns: seq<Writable>, rows: nat, d: char)
    requires columns != [] && AllFit(columns, rows)
    requires forall row :: 0 <= row < rows ==> !EndTrimmed(columns, row, rows, d)
    ensures [] !in RowLines(columns, rows, d) <==> NoRowLost(columns, rows, d)
  {
    hide Fits, Raw, Out, Raws, Join, StripCr, Lost;
    var lines := RowLines(columns, rows, d);
    forall row | 0 <= row < rows
      ensures lines[row] == [] <==> Lost(Raws(columns, row, rows), d)
    {
      assert !EndTrimmed(columns, row, rows, d);
      LostLine(Outs(columns, row, rows, d), d);
      OutsLost(columns, row, rows, d);
    }
    if [] in lines {
      var row :| 0 <= row < rows && lines[row] == [];
    }
    if !NoRowLost(columns, rows, d) {
      var row :| 0 <= row < rows && Lost(Raws(columns, row, rows), d);
      assert lines[row] in lines;
    }
  }

  /** What is read from a text by its first line. */
  lemma {:induction false} ReadByHeader(text: string, header: string, lines: seq<string>, hints: map<string, string>, d: char, f: Floats)
    requires Lines(text) == [header] + lines
    ensures header != [] ==> TableFrom(text, hints, true, d, f) == RowsFrom(Filled(lines), Split(header, d), hints, d, f)
    ensures header == [] && TableFrom(text, hints, true, d, f).Ok? ==>
              var r := TableFrom(text, hints, true, d, f).value;
              r.1 == [] || r.0 < |lines|
  {
    hide Lines, Split, RowsFrom;
    FilledAll(lines);
    var all := [header] + lines;
    assert all[1..] == lines;
    assert Filled(all) == (if header == [] then [] else [header]) + Filled(lines);
    if header != [] {
      assert Filled(all)[1..] == Filled(lines);
    } else if Filled(lines) != [] {
      assert Filled(all) == Filled(lines);
      RowsCounted(Filled(lines)[1..], Split(Filled(lines)[0], d), hints, d, f);
    }
  }

  lemma RowsCounted(lines: seq<string>, names: seq<string>, hints: map<string, string>, d: char, f: Floats)
    ensures var r := RowsFrom(lines, names, hints, d, f);
      r.Ok? ==> r.value.0 == |lines| && |r.value.1| == |names|
  {
    ColumnCount(SplitAll(lines, d), names, 0, hints, f);
  }

  /** As many rows are read as were written exactly when no row is an empty line. */
  lemma {:induction false} RowCountExactly(columns: seq<Writable>, rows: nat, hints: map<string, string>, d: char, f: Floats)
    requires columns != [] && AllFit(columns, rows) && Feedless(columns, rows) && NoEndTrimmed(columns, rows, d)
    requires Parts(columns, d) && HeaderKept(columns, d)
    ensures TableText(columns, true, d, f).Ok?
    ensures var r := TableFrom(TableText(columns, true, d, f).value, hints, true, d, f);
      r.Ok? ==> r.value.0 <= rows && (r.value.0 == rows <==> NoRowLost(columns, rows, d))
  {
    WrittenLines(columns, rows, d, f);
    HeaderReads(columns, d);
    RowsLost(columns, rows, d);
    hide TableText, TableFrom, Header, Lines, Fits, Raw, Split, NoRowLost, RowsFrom, Feedless, NoEndTrimmed;
    var lines := RowLines(columns, rows, d);
    FilledAll(lines);
    var text, header := TableText(columns, true, d, f).value, StripCr(Header(columns, d));
    ReadByHeader(text, header, lines, hints, d, f);
    RowsCounted(Filled(lines), Split(header, d), hints, d, f);
  }

  lemma {:induction false} CellsRead(columns: seq<Writable>, rows: nat, d: char, i: nat)
    requires columns != [] && AllFit(columns, rows) && (d != QUOTE || |columns| == 1) && NoEndTrimmed(columns, rows, d)
    requires NoIntegerCut(columns, rows, d) && i < |columns|
    ensures CellsOf(SplitAll(RowLines(columns, rows, d), d), i) == RawColumn(columns[i], rows)
  {
    hide Fits, Raw, Out, Apart, Join, StripCr, Split, Quoted;
    var lines := RowLines(columns, rows, d);
    forall row | 0 <= row < rows
      ensures CellsOf(SplitAll(lines, d), i)[row] == RawColumn(columns[i], rows)[row]
    {
      SplitAllAt(lines, d, row);
      assert !EndTrimmed(columns, row, rows, d);
      RowReads(columns, row, rows, d);
    }
  }

  /** The text written is read as the names and the lines of the rows, whatever the hints. */
  lemma {:induction false} ReadAsLines(columns: seq<Writable>, rows: nat, hints: map<string, string>, d: char, f: Floats)
    requires columns != [] && AllFit(columns, rows) && Feedless(columns, rows) && NoEndTrimmed(columns, rows, d)
    requires Parts(columns, d) && HeaderKept(columns, d) && NoRowLost(columns, rows, d)
    ensures TableText(columns, true, d, f).Ok?
    ensures TableFrom(TableText(columns, true, d, f).value, hints, true, d, f)
         == RowsFrom(RowLines(columns, rows, d), Names(columns), hints, d, f)
  {
    WrittenLines(columns, rows, d, f);
    HeaderReads(columns, d);
    RowsLost(columns, rows, d);
    hide TableText, TableFrom, Header, Lines, Fits, Raw, Split, NoRowLost, Feedless, NoEndTrimmed, HeaderKept;
    var lines := RowLines(columns, rows, d);
    FilledAll(lines);
    var text, header := TableText(columns, true, d, f).value, StripCr(Header(columns, d));
    ReadByHeader(text, header, lines, hints, d, f);
    hide RowLines, Parts, RowsFrom;
  }

  lemma {:induction false} ReadableBack(columns: seq<Writable>, rows: nat, hints: map<string, string>, d: char, f: Floats)
    requires columns != [] && AllFit(columns, rows) && Feedless(columns, rows) && NoEndTrimmed(columns, rows, d)
    requires AllHinted(columns, hints)
    requires Parts(columns, d) && HeaderKept(columns, d) && NoRowLost(columns, rows, d) && NoIntegerCut(columns, rows, d)
    ensures Back(columns, rows, hints, d, f)
  {
    ReadAsLines(columns, rows, hints, d, f);
    RowsReadBack(columns, rows, hints, d, f);
    hide TableText, TableFrom, RowLines, Fits, NoRowLost, NoIntegerCut, Feedless, NoEndTrimmed, AllHinted, HeaderKept, ReadsBack;
  }

  lemma {:induction false} RowsReadBack(columns: seq<Writable>, rows: nat, hints: map<string, string>, d: char, f: Floats)
    requires columns != [] && AllFit(columns, rows) && NoEndTrimmed(columns, rows, d) && NoIntegerCut(columns, rows, d) && Parts(columns, d)
    requires AllHinted(columns, hints)
    ensures var r := RowsFrom(RowLines(columns, rows, d), Names(columns), hints, d, f);
      && r.Ok? && r.value.0 == rows && |r.value.1| == |columns|
      && forall i :: 0 <= i < |columns| ==> ReadsBack(r.value.1[i], columns[i], rows)
  {
    var split := SplitAll(RowLines(columns, rows, d), d);
    forall i | 0 <= i < |columns|
      ensures ColumnAt(columns[i], split, i, f).Ok? && ReadsBack(ColumnAt(columns[i], split, i, f).value, columns[i], rows)
    {
      CellsRead(columns, rows, d, i);
      ColumnReadsBack(columns[i], rows, f);
    }
    hide RowLines, NoEndTrimmed, NoIntegerCut, Fits, AllHinted, ColumnAt, ReadsBack, ColumnsFrom, Names, CellsOf;
    ColumnsOk(columns, split, 0, hints, f);
    forall i | 0 <= i < |columns|
      ensures |ColumnsFrom(split, Names(columns), 0, hints, f).value| == |columns|
      ensures ReadsBack(ColumnsFrom(split, Names(columns), 0, hints, f).value[i], columns[i], rows)
    {
      ColumnIs(columns, split, 0, hints, f, i);
    }
    ColumnCount(split, Names(columns), 0, hints, f);
  }

  // ----- what is needed -----

  lemma {:induction false} FeedlessLines(s: string)
    ensures forall l :: l in Lines(s) ==> '\n' !in l
    decreases |s|
  {
    if s != [] && FeedAt(s) < |s| {
      FeedlessLines(s[FeedAt(s) + 1..]);
    }
  }

  /** Splitting makes no character up. */
  lemma {:induction false} SplitFree(rest: string, field: string, quoted: bool, d: char, c: char)
    requires c !in rest && c !in field && c != QUOTE
    ensures forall i :: 0 <= i < |SplitFrom(rest, field, quoted, d)| ==> c !in SplitFrom(rest, field, quoted, d)[i]
    decreases |rest|
  {
    if rest == [] {
    } else if rest[0] == QUOTE && quoted && |rest| > 1 && rest[1] == QUOTE {
      SplitFree(rest[2..], field + [QUOTE], quoted, d, c);
    } else if rest[0] == QUOTE {
      SplitFree(rest[1..], field, !quoted, d, c);
    } else if rest[0] == d && !quoted {
      SplitFree(rest[1..], [], quoted, d, c);
    } else {
      SplitFree(rest[1..], field + [rest[0]], quoted, d, c);
    }
  }

  lemma {:induction false} CellsFree(lines: seq<string>, d: char, i: nat, c: char)
    requires c != QUOTE && forall k :: 0 <= k < |lines| ==> c !in lines[k]
    ensures forall k :: 0 <= k < |lines| ==> c !in CellsOf(SplitAll(lines, d), i)[k]
  {
    hide SplitFrom;
    forall k | 0 <= k < |lines|
      ensures c !in CellsOf(SplitAll(lines, d), i)[k]
    {
      SplitAllAt(lines, d, k);
      SplitFree(lines[k], [], false, d, c);
    }
  }

  /** Each column read is named by its name and made of its cells. */
  lemma {:induction false} ColumnFrom(lines: seq<seq<string>>, names: seq<string>, i: nat, hints: map<string, string>, f: Floats, k: nat)
    requires i <= k < |names| && ColumnsFrom(lines, names, i, hints, f).Ok?
    ensures var r := ColumnsFrom(lines, names, i, hints, f).value;
      && |r| == |names| - i
      && exists dtype :: ColumnOf(names[k], CellsOf(lines, k), dtype, f) == Ok(r[k - i])
    decreases |names| - i
  {
    hide ColumnOf, DtypeOf;
    ColumnCount(lines, names, i, hints, f);
    if i < k {
      ColumnFrom(lines, names, i + 1, hints, f, k);
    }
  }

  /** No line feed is read. */
  ghost predicate ReadsNoFeed(d: Decoded) {
    '\n' !in d.name && forall row :: 0 <= row < |d.column.values| && TextAt(d, row) ==> '\n' !in d.column.uniques[d.column.values[row]]
  }

  predicate TextAt(d: Decoded, row: nat)
    requires row < |d.column.values|
  {
    d.column.Texts? && !IsNull(d, row) && 0 <= d.column.values[row] < |d.column.uniques|
  }

  lemma {:induction false} ColumnNoFeed(name: string, cells: seq<string>, dtype: Dtype, f: Floats)
    requires ColumnOf(name, cells, dtype, f).Ok? && '\n' !in name && forall k :: 0 <= k < |cells| ==> '\n' !in cells[k]
    ensures ReadsNoFeed(ColumnOf(name, cells, dtype, f).value)
  {
    hide Build;
    if dtype == AsText {
      ColumnSays(name, cells, dtype, f);
      hide ColumnOf;
      var r := ColumnOf(name, cells, dtype, f).value;
      assert forall row :: 0 <= row < |cells| ==> Meaning(cells[row], dtype, f) == Some(Shown(r, row));
    }
  }

  /** What is read from a text has no line feed in a name or a text; and one column, when the delimiter parts nothing. */
  lemma {:induction false} ReadNoFeed(text: string, hints: map<string, string>, d: char, f: Floats, i: nat)
    requires TableFrom(text, hints, true, d, f).Ok? && i < |TableFrom(text, hints, true, d, f).value.1|
    ensures ReadsNoFeed(TableFrom(text, hints, true, d, f).value.1[i])
    ensures d == QUOTE || d == '\n' ==> i == 0
  {
    hide Lines, SplitFrom, ColumnOf, ReadsNoFeed;
    FeedlessLines(text);
    FilledAll(Lines(text));
    var lines := Filled(Lines(text));
    var names, rest := Split(lines[0], d), lines[1..];
    assert lines[0] in lines && forall k :: 0 <= k < |rest| ==> rest[k] == lines[k + 1] && rest[k] in lines;
    RowsCounted(rest, names, hints, d, f);
    if d == QUOTE || d == '\n' {
      OneField(lines[0], [], false, d);
    }
    SplitFree(lines[0], [], false, d, '\n');
    CellsFree(rest, d, i, '\n');
    ColumnFrom(SplitAll(rest, d), names, 0, hints, f, i);
    var dtype :| ColumnOf(names[i], CellsOf(SplitAll(rest, d), i), dtype, f) == Ok(TableFrom(text, hints, true, d, f).value.1[i]);
    ColumnNoFeed(names[i], CellsOf(SplitAll(rest, d), i), dtype, f);
  }

  lemma {:induction false} BackFeedless(columns: seq<Writable>, rows: nat, hints: map<string, string>, d: char, f: Floats)
    requires columns != [] && AllFit(columns, rows) && Back(columns, rows, hints, d, f)
    ensures Feedless(columns, rows) && Parts(columns, d)
  {
    hide TableText, TableFrom, ReadsBack, Fits, Raw, ReadsNoFeed;
    var r := TableFrom(TableText(columns, true, d, f).value, hints, true, d, f).value.1;
    ReadNoFeed(TableText(columns, true, d, f).value, hints, d, f, |columns| - 1);
    forall i | 0 <= i < |columns|
      ensures '\n' !in columns[i].name
      ensures forall row :: 0 <= row < rows ==> '\n' !in Raw(columns[i], row, rows)
    {
      ReadNoFeed(TableText(columns, true, d, f).value, hints, d, f, i);
      BackNoFeed(columns[i], rows, r[i]);
    }
  }

  lemma BackNoFeed(w: Writable, rows: nat, r: Decoded)
    requires Fits(w, rows) && ReadsBack(r, w, rows) && ReadsNoFeed(r)
    ensures '\n' !in w.name && forall row :: 0 <= row < rows ==> '\n' !in Raw(w, row, rows)
  {
    forall row | 0 <= row < rows
      ensures '\n' !in Raw(w, row, rows)
    {
      if w.column.Ints? && !WrittenNull(w, row) {
        ShowsFree(w.column.values[row], '\n');
      } else if w.column.Texts? && !WrittenNull(w, row) {
        assert Shown(r, row) == ReadAs(Written(w, row, rows));
      }
    }
  }

  /** What comes back was read line by line, the names first. */
  lemma {:induction false} BackByLines(columns: seq<Writable>, rows: nat, hints: map<string, string>, d: char, f: Floats)
    requires columns != [] && AllFit(columns, rows) && Back(columns, rows, hints, d, f)
    requires Feedless(columns, rows) && Parts(columns, d)
    ensures var header := StripCr(Header(columns, d));
      && header != [] && [] !in RowLines(columns, rows, d) && Split(header, d) == Names(columns)
      && TableFrom(TableText(columns, true, d, f).value, hints, true, d, f)
         == RowsFrom(RowLines(columns, rows, d), Names(columns), hints, d, f)
  {
    WrittenLines(columns, rows, d, f);
    hide TableText, TableFrom, Header, Lines, Fits, Split, Feedless, StripCr, OutLines;
    var lines, header, text := RowLines(columns, rows, d), StripCr(Header(columns, d)), TableText(columns, true, d, f).value;
    ReadByHeader(text, header, lines, hints, d, f);
    FilledAll(lines);
    assert header != [];
    RowsCounted(Filled(lines), Split(header, d), hints, d, f);
    NamesBack(columns, rows, lines, Split(header, d), hints, d, f);
  }

  lemma {:induction false} NamesBack(columns: seq<Writable>, rows: nat, lines: seq<string>, names: seq<string>, hints: map<string, string>, d: char, f: Floats)
    requires AllFit(columns, rows) && |names| == |columns| && RowsFrom(lines, names, hints, d, f).Ok?
    requires var r := RowsFrom(lines, names, hints, d, f).value.1;
      |r| == |columns| && forall i :: 0 <= i < |columns| ==> ReadsBack(r[i], columns[i], rows)
    ensures names == Names(columns)
  {
    hide Fits, Build;
    var r := RowsFrom(lines, names, hints, d, f).value.1;
    forall i | 0 <= i < |columns|
      ensures names[i] == columns[i].name
    {
      ColumnFrom(SplitAll(lines, d), names, 0, hints, f, i);
      assert ReadsBack(r[i], columns[i], rows);
    }
  }

  /** The names' line came back, so nothing at its end was lost. */
  lemma {:induction false} HeaderBack(columns: seq<Writable>, d: char)
    requires columns != [] && Parts(columns, d)
    requires StripCr(Header(columns, d)) != [] && Split(StripCr(Header(columns, d)), d) == Names(columns)
    ensures HeaderKept(columns, d) && !EndsCr(Quoted(columns[|columns| - 1].name, d))
  {
    hide StripCr, Join, QuotedAll, Split;
    if EndsCr(Quoted(columns[|columns| - 1].name, d)) {
      LineTrims(Names(columns), d);
    } else {
      HeaderReads(columns, d);
    }
  }

  /** A column's cells mean, row by row, what was written. */
  ghost predicate CellsMean(w: Writable, rows: nat, cells: seq<string>, f: Floats)
    requires Fits(w, rows) && |cells| == rows
  {
    forall row :: 0 <= row < rows ==> Meaning(cells[row], DtypeFor(w), f) == Some(ReadAs(Written(w, row, rows)))
  }

  /** The cells a column that came back was read from mean what was written. */
  lemma {:induction false} BackCells(columns: seq<Writable>, rows: nat, hints: map<string, string>, d: char, f: Floats, j: nat)
    requires columns != [] && AllFit(columns, rows) && Back(columns, rows, hints, d, f)
    requires TableFrom(TableText(columns, true, d, f).value, hints, true, d, f)
          == RowsFrom(RowLines(columns, rows, d), Names(columns), hints, d, f)
    requires j < |columns| && AllHinted(columns, hints)
    ensures CellsMean(columns[j], rows, CellsOf(SplitAll(RowLines(columns, rows, d), d), j), f)
  {
    BackAt(columns, rows, hints, d, f, j);
    hide TableText, TableFrom, AllHinted, RowLines, ReadsBack, Back, Fits, CellsMean, AllFit, Names, CellsOf;
    SplitRead(columns[j], rows, columns, SplitAll(RowLines(columns, rows, d), d), hints, f, j);
  }

  lemma {:induction false} SplitRead(w: Writable, rows: nat, columns: seq<Writable>, split: seq<seq<string>>, hints: map<string, string>, f: Floats, j: nat)
    requires j < |columns| && columns[j] == w && Fits(w, rows) && |split| == rows && AllHinted(columns, hints)
    requires ColumnsFrom(split, Names(columns), 0, hints, f).Ok?
    requires var r := ColumnsFrom(split, Names(columns), 0, hints, f).value;
      j < |r| && ReadsBack(r[j], w, rows)
    ensures CellsMean(w, rows, CellsOf(split, j), f)
  {
    hide AllHinted, ColumnOf, ReadsBack, Fits, Names, CellsOf, CellsMean, ColumnsFrom;
    ColumnIs(columns, split, 0, hints, f, j);
    BackColumn(w, rows, CellsOf(split, j), ColumnsFrom(split, Names(columns), 0, hints, f).value[j], f);
  }

  lemma BackAt(columns: seq<Writable>, rows: nat, hints: map<string, string>, d: char, f: Floats, j: nat)
    requires AllFit(columns, rows) && Back(columns, rows, hints, d, f) && j < |columns|
    ensures TableText(columns, true, d, f).Ok? && TableFrom(TableText(columns, true, d, f).value, hints, true, d, f).Ok?
    ensures var r := TableFrom(TableText(columns, true, d, f).value, hints, true, d, f).value.1;
      j < |r| && Fits(columns[j], rows) && ReadsBack(r[j], columns[j], rows)
  {
    hide TableText, TableFrom, ReadsBack;
  }

  lemma {:induction false} BackColumn(w: Writable, rows: nat, cells: seq<string>, r: Decoded, f: Floats)
    requires Fits(w, rows) && |cells| == rows && ColumnOf(w.name, cells, DtypeFor(w), f) == Ok(r) && ReadsBack(r, w, rows)
    ensures CellsMean(w, rows, cells, f)
  {
    hide Fits, ColumnOf, Meaning, Written;
    ColumnSays(w.name, cells, DtypeFor(w), f);
  }

  lemma CutCell(w: Writable, rows: nat, row: nat, cell: string, d: char, f: Floats)
    requires Fits(w, rows) && row < rows && !Apart(w, row, rows, d)
    requires |cell| < |Raw(w, row, rows)| && cell <= Raw(w, row, rows)
    ensures Meaning(cell, DtypeFor(w), f) != Some(ReadAs(Written(w, row, rows)))
  {
    hide Meaning;
    CutMeansOther(w.column.values[row], cell, f);
  }

  lemma TrimmedCell(w: Writable, rows: nat, row: nat, d: char, f: Floats)
    requires Fits(w, rows) && row < rows && Apart(w, row, rows, d) && EndsCr(Out(w, row, rows, d))
    ensures Meaning(StripCr(Raw(w, row, rows)), DtypeFor(w), f) != Some(ReadAs(Written(w, row, rows)))
  {
    if w.column.Ints? {
      if !WrittenNull(w, row) {
        ShowsFree(w.column.values[row], '\r');
      }
      assert false;
    } else {
      TrimQuoted(Raw(w, row, rows), d);
    }
  }

  /** A row that came back had no integer cut and nothing trimmed at its end. */
  lemma {:induction false} BackRow(columns: seq<Writable>, rows: nat, d: char, f: Floats, row: nat)
    requires columns != [] && AllFit(columns, rows) && Parts(columns, d) && row < rows
    requires forall j :: 0 <= j < |columns| ==> CellsMean(columns[j], rows, CellsOf(SplitAll(RowLines(columns, rows, d), d), j), f)
    ensures forall i :: 0 <= i < |columns| ==> Apart(columns[i], row, rows, d)
    ensures !EndTrimmed(columns, row, rows, d)
  {
    hide Fits, Raw, Out, Apart, Join, StripCr, Split, Meaning, Written;
    var last := |columns| - 1;
    SplitAllAt(RowLines(columns, rows, d), d, row);
    var split := Split(RowLines(columns, rows, d)[row], d);
    assert forall j :: 0 <= j < |columns| ==>
      CellsOf(SplitAll(RowLines(columns, rows, d), d), j)[row] == if j < |split| then split[j] else [];
    if exists i :: 0 <= i < |columns| && !Apart(columns[i], row, rows, d) {
      var j := IntegerCut(columns, row, rows, d);
      CutCell(columns[j], rows, row, split[j], d, f);
      assert false;
    } else if EndTrimmed(columns, row, rows, d) {
      RowReads(columns, row, rows, d);
      TrimmedCell(columns[last], rows, row, d, f);
      assert false;
    }
  }

  lemma {:induction false} BackReadable(columns: seq<Writable>, rows: nat, hints: map<string, string>, d: char, f: Floats)
    requires columns != [] && AllFit(columns, rows) && Back(columns, rows, hints, d, f)
    requires AllHinted(columns, hints)
    ensures Feedless(columns, rows) && Parts(columns, d) && HeaderKept(columns, d)
    ensures NoIntegerCut(columns, rows, d) && NoEndTrimmed(columns, rows, d) && NoRowLost(columns, rows, d)
  {
    hide TableText, TableFrom, RowsFrom, Header, Fits, Raw, Out, Split, Apart, Feedless, StripCr, Back, AllHinted, CellsMean,
         Parts, HeaderKept, Quoted, NoRowLost, RowLines, EndTrimmed;
    BackFeedless(columns, rows, hints, d, f);
    BackByLines(columns, rows, hints, d, f);
    HeaderBack(columns, d);
    forall j | 0 <= j < |columns|
      ensures CellsMean(columns[j], rows, CellsOf(SplitAll(RowLines(columns, rows, d), d), j), f)
    {
      BackCells(columns, rows, hints, d, f, j);
    }
    forall row | 0 <= row < rows
      ensures !EndTrimmed(columns, row, rows, d)
    {
      BackRow(columns, rows, d, f, row);
    }
    forall i, row | 0 <= i < |columns| && 0 <= row < rows
      ensures Apart(columns[i], row, rows, d)
    {
      BackRow(columns, rows, d, f, row);
    }
    RowsLost(columns, rows, d);
  }

  /**
   A written table of integers and texts is read back, every name, row and null, exactly
   when its delimiter parts the fields; no name and no row is lost, and no carriage
   return trimmed, at a line's end; no integer, which is never quoted, has the delimiter
   in it; and no name or text has a line feed.
   */
  lemma {:induction false} TableReadsBackExactly(columns: seq<Writable>, rows: nat, hints: map<string, string>, d: char, f: Floats)
    requires columns != [] && AllFit(columns, rows)
    requires AllHinted(columns, hints)
    ensures Back(columns, rows, hints, d, f)
       <==> Parts(columns, d) && HeaderKept(columns, d) && NoRowLost(columns, rows, d) && NoEndTrimmed(columns, rows, d)
            && NoIntegerCut(columns, rows, d) && Feedless(columns, rows)
  {
    hide Fits, Feedless, AllHinted, HeaderKept, NoRowLost, NoEndTrimmed, NoIntegerCut, Parts, Back;
    if Back(columns, rows, hints, d, f) {
      BackReadable(columns, rows, hints, d, f);
    } else if Parts(columns, d) && HeaderKept(columns, d) && NoRowLost(columns, rows, d) && NoEndTrimmed(columns, rows, d)
              && NoIntegerCut(columns, rows, d) && Feedless(columns, rows) {
      ReadableBack(columns, rows, hints, d, f);
    }
  }

  // ----- some that fail -----

  /** A carriage return as delimiter: of a table whose one row is two nulls no row is read. */
  lemma CarriageReturnDropsRow(f: Floats)
    ensures var columns := [Writable("a", Texts([0], []), [1]), Writable("b", Texts([0], []), [1])];
      var text := TableText(columns, true, '\r', f);
      text.Ok? && var r := TableFrom(text.value, map["a" := "str", "b" := "str"], true, '\r', f);
      r.Ok? && r.value.0 == 0
  {
    var columns := [Writable("a", Texts([0], []), [1]), Writable("b", Texts([0], []), [1])];
    var hints := map["a" := "str", "b" := "str"];
    assert forall i :: 0 <= i < 2 ==> WrittenNull(columns[i], 0) && Fits(columns[i], 1) && Raw(columns[i], 0, 1) == [];
    assert Raws(columns, 0, 1) == [[], []] && !NoRowLost(columns, 1, '\r');
    assert Feedless(columns, 1) && NoEndTrimmed(columns, 1, '\r') && HeaderKept(columns, '\r');
    assert Hinted(columns[0], hints) && Hinted(columns[1], hints);
    RowsLost(columns, 1, '\r');
    hide Fits, Raws, NoRowLost, Feedless, NoEndTrimmed, Hinted, HeaderKept, RowLines;
    NothingRead(columns, hints, '\r', f);
  }

  /** A table of one row, and that lost: nothing is read, and nothing refused. */
  lemma {:induction false} NothingRead(columns: seq<Writable>, hints: map<string, string>, d: char, f: Floats)
    requires columns != [] && AllFit(columns, 1) && Feedless(columns, 1) && NoEndTrimmed(columns, 1, d)
    requires Parts(columns, d) && HeaderKept(columns, d)
    requires [] in RowLines(columns, 1, d) && AllHinted(columns, hints)
    ensures TableText(columns, true, d, f).Ok?
    ensures var r := TableFrom(TableText(columns, true, d, f).value, hints, true, d, f);
      r.Ok? && r.value.0 == 0
  {
    WrittenLines(columns, 1, d, f);
    HeaderReads(columns, d);
    hide TableText, TableFrom, Header, Lines, Fits, Raw, Split, Feedless, NoEndTrimmed, Hinted, HeaderKept, ColumnOf, RowLines;
    var lines := RowLines(columns, 1, d);
    assert lines == [[]] && lines[1..] == [];
    assert Filled(lines) == [];
    ReadByHeader(TableText(columns, true, d, f).value, StripCr(Header(columns, d)), lines, hints, d, f);
    NoRowsRead(columns, hints, d, f);
  }

  lemma {:induction false} NoRowsRead(columns: seq<Writable>, hints: map<string, string>, d: char, f: Floats)
    requires AllHinted(columns, hints)
    ensures RowsFrom([], Names(columns), hints, d, f).Ok? && RowsFrom([], Names(columns), hints, d, f).value.0 == 0
  {
    hide Hinted, ColumnOf;
    forall k | 0 <= k < |columns|
      ensures ColumnAt(columns[k], [], k, f).Ok?
    {
      ColumnSays(columns[k].name, CellsOf([], k), DtypeFor(columns[k]), f);
    }
    ColumnsOk(columns, [], 0, hints, f);
  }

  /** A digit as delimiter: 15, which is not quoted, is not read back. */
  lemma DigitCutsInteger(f: Floats)
    ensures var columns := [Writable("n", Ints([15]), [])];
      AllFit(columns, 1) && !Back(columns, 1, map["n" := "i64"], '5', f)
  {
    var columns := [Writable("n", Ints([15]), [])];
    assert Fits(columns[0], 1);
    assert Decimal(1) == ['1'] && Decimal(15) == ['1', '5'];
    assert Raw(columns[0], 0, 1) == "15" && '5' == "15"[1];
    assert !Apart(columns[0], 0, 1, '5');
    OneColumnCut(columns, map["n" := "i64"], '5', f);
  }

  /** A minus as delimiter: -1 is not read back. */
  lemma MinusCutsInteger(f: Floats)
    ensures var columns := [Writable("n", Ints([-1]), [])];
      AllFit(columns, 1) && !Back(columns, 1, map["n" := "i64"], '-', f)
  {
    var columns := [Writable("n", Ints([-1]), [])];
    assert Fits(columns[0], 1);
    assert Decimal(1) == ['1'];
    assert Raw(columns[0], 0, 1) == "-" + Decimal(1) && '-' == Raw(columns[0], 0, 1)[0];
    assert !Apart(columns[0], 0, 1, '-');
    OneColumnCut(columns, map["n" := "i64"], '-', f);
  }

  lemma OneColumnCut(columns: seq<Writable>, hints: map<string, string>, d: char, f: Floats)
    requires |columns| == 1 && AllFit(columns, 1) && Hinted(columns[0], hints) && !Apart(columns[0], 0, 1, d)
    ensures !Back(columns, 1, hints, d, f)
  {
    hide Fits, Hinted, Apart, Back;
    TableReadsBackExactly(columns, 1, hints, d, f);
  }

  /** A text with a line feed, quoted by the writer, is read as two rows, and not refused. */
  lemma FeedReadsTwoRows(f: Floats)
    ensures var columns := [Writable("t", Texts([0], ["a\nb"]), [])];
      var text := TableText(columns, true, ',', f);
      text.Ok? && var r := TableFrom(text.value, map["t" := "str"], true, ',', f);
      r.Ok? && r.value.0 == 2
  {
    var columns := [Writable("t", Texts([0], ["a\nb"]), [])];
    var hints := map["t" := "str"];
    FeedLines(columns, f);
    assert Hinted(columns[0], hints);
    hide TableText, TableFrom, Lines, Split, Hinted, RowsFrom, Names;
    var lines := ["\"a", "b\""];
    ReadByHeader(TableText(columns, true, ',', f).value, "t", lines, hints, ',', f);
    FilledAll(lines);
    NameSplits(columns);
    OneTextColumn(columns, lines, hints, f);
  }

  lemma OneTextColumn(columns: seq<Writable>, lines: seq<string>, hints: map<string, string>, f: Floats)
    requires |columns| == 1 && columns[0].column.Texts? && Hinted(columns[0], hints)
    ensures var r := RowsFrom(lines, Names(columns), hints, ',', f);
      r.Ok? && r.value.0 == |lines|
  {
    hide ColumnOf, Hinted, SplitAll;
    ColumnSays(columns[0].name, CellsOf(SplitAll(lines, ','), 0), AsText, f);
    ColumnsOk(columns, SplitAll(lines, ','), 0, hints, f);
    hide Names, ColumnsFrom, CellsOf;
  }

  lemma NameSplits(columns: seq<Writable>)
    requires |columns| == 1 && columns[0].name == "t"
    ensures Split("t", ',') == Names(columns)
  {
    PlainReads("t", [], [], ',');
    assert "t" + [] == "t" && [] + "t" == "t";
    assert Names(columns) == ["t"];
  }

  lemma FeedLines(columns: seq<Writable>, f: Floats)
    requires columns == [Writable("t", Texts([0], ["a\nb"]), [])]
    ensures TableText(columns, true, ',', f).Ok?
    ensures Lines(TableText(columns, true, ',', f).value) == ["t"] + ["\"a", "b\""]
  {
    assert Fits(columns[0], 1);
    TextIs(columns, 1, ',', f);
    FeedWritten(columns);
    hide TableText, Lines, Header, OutLines;
    TwoEnded("t", "\"a", "b\"");
    var rest := "b\"" + "\n" + "";
    LineFirst("t", "\"a" + "\n" + rest);
    LineFirst("\"a", rest);
    LineFirst("b\"", "");
    NoLines();
  }

  lemma FeedWritten(columns: seq<Writable>)
    requires columns == [Writable("t", Texts([0], ["a\nb"]), [])] && AllFit(columns, 1)
    ensures Header(columns, ',') == "t" && OutLines(columns, 0, 1, ',') == ["\"a" + "\n" + "b\""]
  {
    var line := Out(columns[0], 0, 1, ',');
    assert Raw(columns[0], 0, 1) == "a\nb";
    assert '\n' == "a\nb"[1];
    assert "a\nb"[1..] == "\nb" && "\nb"[1..] == "b" && "b"[1..] == "";
    assert Doubled("b") == "b" && Doubled("\nb") == "\nb" && Doubled("a\nb") == "a\nb";
    assert line == "\"a" + "\n" + "b\"";
    assert Outs(columns, 0, 1, ',') == [line] && Join([line], ',') == line;
    assert Names(columns) == ["t"] && ["t"][1..] == [] && QuotedAll(["t"], ',') == ["t"];
  }

  lemma TwoEnded(a: string, b: string, c: string)
    ensures Ended([a] + [b + "\n" + c]) == a + "\n" + (b + "\n" + (c + "\n" + ""))
  {
    var line := b + "\n" + c;
    assert ([a] + [line])[1..] == [line] && [line][1..] == [];
    assert Ended([line]) == line + "\n" + "";
    assert line + "\n" + "" == b + "\n" + (c + "\n" + "");
  }
}
