/** Whole tables as CSV text, written and read back. */
module CsvTable {
  import opened Prelude
  import opened Text
  import opened Table
  import opened CsvLine
  import opened Csv

  // ----- writing -----

  function RowsOf(columns: seq<Writable>): nat {
    if columns == [] then 0 else |columns[0].column.values|
  }

  function FieldText(w: Writable, row: nat, delimiter: char, f: Floats): Result<string, CsvError>
    requires row < |w.column.values|
  {
    if WrittenNull(w, row) then Ok([]) else
      match w.column
      case Doubles(values) => Ok(f.show(values[row]))
      case Ints(values) => Ok(ShowInt(values[row]))
      case Texts(codes, uniques) =>
        if 0 <= codes[row] < |uniques| then Ok(Quoted(uniques[codes[row]], delimiter))
        else Err(NoCode(w.name, row, codes[row]))
  }

  predicate SameRows(columns: seq<Writable>, rows: nat) {
    forall i :: 0 <= i < |columns| ==> |columns[i].column.values| == rows
  }

  function FieldTexts(columns: seq<Writable>, row: nat, rows: nat, delimiter: char, f: Floats): Result<seq<string>, CsvError>
    requires SameRows(columns, rows) && row < rows
  {
    if columns == [] then Ok([]) else
      match FieldText(columns[0], row, delimiter, f)
      case Err(e) => Err(e)
      case Ok(text) =>
        match FieldTexts(columns[1..], row, rows, delimiter, f)
        case Err(e) => Err(e)
        case Ok(texts) => Ok([text] + texts)
  }

  /** The rows from one on, a line each. */
  function RowTexts(columns: seq<Writable>, row: nat, rows: nat, delimiter: char, f: Floats): Result<string, CsvError>
    requires SameRows(columns, rows) && row <= rows
    decreases rows - row
  {
    if row == rows then Ok([]) else
      match FieldTexts(columns, row, rows, delimiter, f)
      case Err(e) => Err(e)
      case Ok(texts) =>
        match RowTexts(columns, row + 1, rows, delimiter, f)
        case Err(e) => Err(e)
        case Ok(rest) => Ok(Join(texts, delimiter) + "\n" + rest)
  }

  function Names(columns: seq<Writable>): (r: seq<string>)
    ensures |r| == |columns|
  {
    seq(|columns|, i requires 0 <= i < |columns| => columns[i].name)
  }

  /** The first column whose rows are not as many as the first's. */
  function FirstOdd(columns: seq<Writable>, rows: nat): (r: Option<string>)
    ensures r.None? <==> SameRows(columns, rows)
  {
    if columns == [] then None
    else if |columns[0].column.values| != rows then Some(columns[0].name)
    else
      assert FirstOdd(columns[1..], rows).None? ==> columns == [columns[0]] + columns[1..];
      FirstOdd(columns[1..], rows)
  }

  function TableText(columns: seq<Writable>, header: bool, delimiter: char, f: Floats): Result<string, CsvError> {
    var rows := RowsOf(columns);
    match FirstOdd(columns, rows)
    case Some(name) => Err(RowsDiffer(name))
    case None =>
      match RowTexts(columns, 0, rows, delimiter, f)
      case Err(e) => Err(e)
      case Ok(body) =>
        Ok((if header then Join(QuotedAll(Names(columns), delimiter), delimiter) + "\n" else []) + body)
  }

  method CheckRows(columns: seq<Writable>, rows: nat) returns (odd: Option<string>)
    ensures odd == FirstOdd(columns, rows)
  {
    assert columns[0..] == columns;
    for i := 0 to |columns|
      invariant FirstOdd(columns[i..], rows) == FirstOdd(columns, rows)
    {
      assert columns[i..][1..] == columns[i + 1..];
      if |columns[i].column.values| != rows {
        return Some(columns[i].name);
      }
    }
    return None;
  }

  method WriteRow(columns: seq<Writable>, row: nat, rows: nat, delimiter: char, f: Floats)
      returns (r: Result<seq<string>, CsvError>)
    requires SameRows(columns, rows) && row < rows
    ensures r == FieldTexts(columns, row, rows, delimiter, f)
  {
    hide FieldText;
    var fields: seq<string> := [];
    assert columns[0..] == columns;
    AfterNothing(FieldTexts(columns, row, rows, delimiter, f), fields);
    for i := 0 to |columns|
      invariant FieldTexts(columns, row, rows, delimiter, f) == After(fields, FieldTexts(columns[i..], row, rows, delimiter, f))
    {
      assert columns[i..][1..] == columns[i + 1..];
      var field := FieldText(columns[i], row, delimiter, f);
      if field.Err? {
        return Err(field.error);
      }
      Appends(fields, [field.value], FieldTexts(columns[i + 1..], row, rows, delimiter, f));
      fields := fields + [field.value];
    }
    AfterNothing(FieldTexts([], row, rows, delimiter, f), fields);
    return Ok(fields);
  }

  method WriteTable(columns: seq<Writable>, header: bool, delimiter: char, f: Floats) returns (r: Result<string, CsvError>)
    ensures r == TableText(columns, header, delimiter, f)
  {
    hide FieldTexts, Quoted, QuotedAll, Join, FirstOdd;
    var rows := RowsOf(columns);
    var odd := CheckRows(columns, rows);
    if odd.Some? {
      return Err(RowsDiffer(odd.value));
    }
    var out: string := [];
    if header {
      out := out + Join(QuotedAll(Names(columns), delimiter), delimiter);
      out := out + "\n";
    }
    ghost var top := out;
    assert top == if header then Join(QuotedAll(Names(columns), delimiter), delimiter) + "\n" else [];
    AfterNothing(RowTexts(columns, 0, rows, delimiter, f), []);
    ghost var body: string := [];
    for row := 0 to rows
      invariant out == top + body
      invariant RowTexts(columns, 0, rows, delimiter, f) == After(body, RowTexts(columns, row, rows, delimiter, f))
    {
      var texts := WriteRow(columns, row, rows, delimiter, f);
      if texts.Err? {
        return Err(texts.error);
      }
      var fields := texts.value;
      Appends(body, Join(fields, delimiter) + "\n", RowTexts(columns, row + 1, rows, delimiter, f));
      ghost var line := Join(fields, delimiter) + "\n";
      assert top + (body + line) == ((top + body) + Join(fields, delimiter)) + "\n";
      out := out + Join(fields, delimiter);
      out := out + "\n";
      body := body + line;
    }
    AfterNothing(RowTexts(columns, rows, rows, delimiter, f), body);
    return Ok(out);
  }

  ghost function After<T, E>(done: seq<T>, rest: Result<seq<T>, E>): Result<seq<T>, E> {
    if rest.Ok? then Ok(done + rest.value) else rest
  }

  lemma AfterNothing<T, E>(rest: Result<seq<T>, E>, done: seq<T>)
    ensures After([], rest) == rest
    ensures After<T, E>(done, Ok([])) == Ok(done)
  {
    assert done + [] == done;
    if rest.Ok? {
      assert [] + rest.value == rest.value;
    }
  }

  lemma Appends<T, E>(done: seq<T>, next: seq<T>, rest: Result<seq<T>, E>)
    ensures After(done, After(next, rest)) == After(done + next, rest)
  {
    if rest.Ok? {
      assert done + (next + rest.value) == done + next + rest.value;
    }
  }

  // ----- reading -----

  function CellsOf(rows: seq<seq<string>>, i: nat): (cells: seq<string>)
    ensures |cells| == |rows|
  {
    seq(|rows|, r requires 0 <= r < |rows| => if i < |rows[r]| then rows[r][i] else [])
  }

  /** What a column looks like: integers, numbers, or text. */
  function Infer(cells: seq<string>, f: Floats): Dtype {
    if forall c | c in cells :: c == [] then AsText
    else if forall c | c in cells && c != [] :: ParseInt(c).Some? then AsInt
    else if exists c | c in cells && c != [] :: ParseInt(c).None? && f.parse(c).None? then AsText
    else AsDouble
  }

  /** No integer and no double. */
  ghost predicate NoNumber(c: string, f: Floats) {
    (forall v :: !(InI64(v) && NamesInt(c, v))) && f.parse(c).None?
  }

  ghost predicate IsInteger(c: string) {
    exists v :: InI64(v) && NamesInt(c, v)
  }

  /**
   With no hint a column is text when it holds a cell that is no number, or no cell at
   all; integers when every cell it holds is one; and doubles when some is no integer
   but all are numbers.
   */
  lemma {:induction false} InferExactly(cells: seq<string>, f: Floats)
    ensures Infer(cells, f) == AsText
       <==> (forall c :: c in cells ==> c == []) || exists c :: c in cells && c != [] && NoNumber(c, f)
    ensures Infer(cells, f) == AsInt
       <==> (exists c :: c in cells && c != []) && forall c :: c in cells && c != [] ==> IsInteger(c)
    ensures Infer(cells, f) == AsDouble
       <==> (exists c :: c in cells && c != [] && !IsInteger(c)) && forall c :: c in cells && c != [] ==> !NoNumber(c, f)
  {
    forall c | c in cells
      ensures ParseInt(c).Some? <==> IsInteger(c)
    {
      IntegerExactly(c);
    }
    hide ParseInt, NamesInt, InI64;
    assert forall c :: c in cells ==> (NoNumber(c, f) <==> !IsInteger(c) && f.parse(c).None?);
    hide IsInteger, NoNumber;
  }

  lemma IntegerExactly(c: string)
    ensures ParseInt(c).Some? <==> IsInteger(c)
  {
    hide NamesInt;
    if ParseInt(c).Some? {
      IntExactly(c, ParseInt(c).value);
    }
    if v :| InI64(v) && NamesInt(c, v) {
      IntExactly(c, v);
    }
  }

  method InferType(cells: seq<string>, f: Floats) returns (dtype: Dtype)
    ensures dtype == Infer(cells, f)
  {
    hide ParseInt;
    var seen, integral := false, true;
    for i := 0 to |cells|
      invariant seen <==> exists k :: 0 <= k < i && cells[k] != []
      invariant integral <==> forall k :: 0 <= k < i && cells[k] != [] ==> ParseInt(cells[k]).Some?
      invariant forall k :: 0 <= k < i && cells[k] != [] ==> ParseInt(cells[k]).Some? || f.parse(cells[k]).Some?
    {
      if cells[i] != [] {
        seen := true;
        if ParseInt(cells[i]).None? {
          integral := false;
          if f.parse(cells[i]).None? {
            assert cells[i] in cells;
            return AsText;
          }
        }
      }
    }
    assert forall k :: 0 <= k < |cells| ==> cells[k] in cells;
    assert forall c :: c in cells ==> exists k :: 0 <= k < |cells| && cells[k] == c;
    return if !seen then AsText else if integral then AsInt else AsDouble;
  }

  function DtypeOf(name: string, cells: seq<string>, hints: map<string, string>, f: Floats): Result<Dtype, CsvError> {
    if name !in hints then Ok(Infer(cells, f))
    else if hints[name] == "f64" then Ok(AsDouble)
    else if hints[name] == "i64" then Ok(AsInt)
    else if hints[name] == "str" then Ok(AsText)
    else Err(BadHint(name))
  }

  /** The columns from one on. */
  function ColumnsFrom(rows: seq<seq<string>>, names: seq<string>, i: nat, hints: map<string, string>, f: Floats)
      : Result<seq<Decoded>, CsvError>
    requires i <= |names|
    decreases |names| - i
  {
    if i == |names| then Ok([]) else
      match DtypeOf(names[i], CellsOf(rows, i), hints, f)
      case Err(e) => Err(e)
      case Ok(dtype) =>
        match ColumnOf(names[i], CellsOf(rows, i), dtype, f)
        case Err(e) => Err(e)
        case Ok(d) =>
          match ColumnsFrom(rows, names, i + 1, hints, f)
          case Err(e) => Err(e)
          case Ok(rest) => Ok([d] + rest)
  }

  function SplitAll(lines: seq<string>, delimiter: char): (r: seq<seq<string>>)
    ensures |r| == |lines|
  {
    if lines == [] then [] else [Split(lines[0], delimiter)] + SplitAll(lines[1..], delimiter)
  }

  function RowsFrom(lines: seq<string>, names: seq<string>, hints: map<string, string>, delimiter: char, f: Floats)
      : Result<(nat, seq<Decoded>), CsvError>
  {
    match ColumnsFrom(SplitAll(lines, delimiter), names, 0, hints, f)
    case Err(e) => Err(e)
    case Ok(columns) => Ok((|lines|, columns))
  }

  function TableFrom(text: string, hints: map<string, string>, header: bool, delimiter: char, f: Floats)
      : Result<(nat, seq<Decoded>), CsvError>
  {
    var lines := Filled(Lines(text));
    if lines == [] then Ok((0, []))
    else if header then RowsFrom(lines[1..], Split(lines[0], delimiter), hints, delimiter, f)
    else
      var n := |Split(lines[0], delimiter)|;
      RowsFrom(lines, seq(n, i requires 0 <= i < n => "c" + Decimal(i)), hints, delimiter, f)
  }

  lemma {:induction false} SplitAllAt(lines: seq<string>, delimiter: char, i: nat)
    requires i < |lines|
    ensures SplitAll(lines, delimiter)[i] == Split(lines[i], delimiter)
  {
    if i > 0 {
      SplitAllAt(lines[1..], delimiter, i - 1);
    }
  }

  method ReadRows(lines: seq<string>, names: seq<string>, hints: map<string, string>, delimiter: char, f: Floats)
      returns (r: Result<(nat, seq<Decoded>), CsvError>)
    ensures r == RowsFrom(lines, names, hints, delimiter, f)
  {
    hide Split, ColumnOf, DtypeOf;
    ghost var rows := SplitAll(lines, delimiter);
    var cells: seq<seq<string>> := seq(|names|, _ => []);
    var count := 0;
    for l := 0 to |lines|
      invariant count == l && |cells| == |names|
      invariant forall i :: 0 <= i < |names| ==> cells[i] == CellsOf(rows[..l], i)
    {
      var fields := SplitLine(lines[l], delimiter);
      SplitAllAt(lines, delimiter, l);
      for i := 0 to |names|
        invariant |cells| == |names|
        invariant forall k :: 0 <= k < i ==> cells[k] == CellsOf(rows[..l + 1], k)
        invariant forall k :: i <= k < |names| ==> cells[k] == CellsOf(rows[..l], k)
      {
        ColumnGrows(rows, l, i);
        cells := cells[i := cells[i] + [if i < |fields| then fields[i] else []]];
      }
      count := count + 1;
    }
    assert rows[..|lines|] == rows;
    var out: seq<Decoded> := [];
    AfterNothing(ColumnsFrom(rows, names, 0, hints, f), out);
    for i := 0 to |names|
      invariant ColumnsFrom(rows, names, 0, hints, f) == After(out, ColumnsFrom(rows, names, i, hints, f))
    {
      var inferred := InferType(cells[i], f);
      var dtype := if names[i] in hints then DtypeOf(names[i], cells[i], hints, f) else Ok(inferred);
      DtypeIs(names[i], cells[i], hints, f);
      if dtype.Err? {
        return Err(dtype.error);
      }
      var column := ReadColumn(names[i], cells[i], dtype.value, f);
      if column.Err? {
        return Err(column.error);
      }
      Appends(out, [column.value], ColumnsFrom(rows, names, i + 1, hints, f));
      out := out + [column.value];
    }
    AfterNothing(ColumnsFrom(rows, names, |names|, hints, f), out);
    return Ok((count, out));
  }

  lemma DtypeIs(name: string, cells: seq<string>, hints: map<string, string>, f: Floats)
    ensures name !in hints ==> DtypeOf(name, cells, hints, f) == Ok(Infer(cells, f))
  {
  }

  lemma ColumnGrows(rows: seq<seq<string>>, l: nat, i: nat)
    requires l < |rows|
    ensures CellsOf(rows[..l + 1], i) == CellsOf(rows[..l], i) + [if i < |rows[l]| then rows[l][i] else []]
  {
  }

  method ReadTable(text: string, hints: map<string, string>, header: bool, delimiter: char, f: Floats)
      returns (r: Result<(nat, seq<Decoded>), CsvError>)
    ensures r == TableFrom(text, hints, header, delimiter, f)
  {
    var lines := Filled(Lines(text));
    if lines == [] {
      return Ok((0, []));
    }
    var first := SplitLine(lines[0], delimiter);
    if header {
      r := ReadRows(lines[1..], first, hints, delimiter, f);
    } else {
      r := ReadRows(lines, seq(|first|, i requires 0 <= i < |first| => "c" + Decimal(i)), hints, delimiter, f);
    }
  }
}
