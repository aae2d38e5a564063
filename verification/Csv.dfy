/** Writing a table as CSV and reading one back. */
module Csv {
  import opened Prelude
  import opened Text
  import opened Table
  import opened CsvLine

  datatype CsvError =
    | RowsDiffer(name: string)
    | NoCode(name: string, row: nat, code: int)
    | BadHint(name: string)
    | BadCell(name: string, row: nat)

  datatype Dtype = AsDouble | AsInt | AsText

  /** How the platform shows and parses doubles, by their bits. */
  datatype Floats = Floats(show: int -> string, parse: string -> Option<int>)

  // ----- integers as text -----

  predicate InI64(v: int) {
    -0x8000_0000_0000_0000 <= v < 0x8000_0000_0000_0000
  }

  function ShowInt(v: int): string {
    if v < 0 then "-" + Decimal(-v) else Decimal(v)
  }

  function ParseInt(s: string): Option<int> {
    var digits := if s != [] && (s[0] == '+' || s[0] == '-') then s[1..] else s;
    if digits == [] then None else
      match DecimalValue(digits)
      case None => None
      case Some(n) =>
        var v: int := if s[0] == '-' then 0 - n else n;
        if InI64(v) then Some(v) else None
  }

  lemma ParseShows(v: int)
    ensures InI64(v) ==> ParseInt(ShowInt(v)) == Some(v)
    ensures ShowInt(v) != [] && forall i :: 0 <= i < |ShowInt(v)| ==> IsDigit(ShowInt(v)[i]) || ShowInt(v)[i] == '-'
  {
    var n := if v < 0 then -v else v;
    DecimalReads(n);
    assert IsDigit(Decimal(n)[0]);
    if v < 0 {
      assert ShowInt(v)[1..] == Decimal(n);
    }
  }

  /** Leading zeros, then the number as it is printed. */
  ghost predicate NamesNumber(digits: string, n: nat) {
    exists k: nat :: digits == Zeros(k) + Decimal(n)
  }

  function Zeros(k: nat): (s: string)
    ensures |s| == k && forall i :: 0 <= i < k ==> s[i] == '0'
  {
    seq(k, i => '0')
  }

  /** A sign if any, then digits that name the number's size. */
  ghost predicate NamesInt(s: string, v: int) {
    || (v >= 0 && NamesNumber(s, v))
    || (s != [] && s[0] == '+' && v >= 0 && NamesNumber(s[1..], v))
    || (s != [] && s[0] == '-' && v <= 0 && NamesNumber(s[1..], -v))
  }

  lemma ZerosMore(k: nat)
    ensures Zeros(k) + ['0'] == Zeros(k + 1)
  {
  }

  lemma DecimalStep(n: nat, c: char)
    requires IsDigit(c)
    ensures Decimal(10 * n + (c as int - 48)) == (if n == 0 then [] else Decimal(n)) + [c]
  {
    var m := 10 * n + (c as int - 48);
    assert m / 10 == n && m % 10 == c as int - 48;
  }

  lemma {:induction false} ValueNames(s: string, n: nat)
    requires s != [] && DecimalValue(s) == Some(n)
    ensures NamesNumber(s, n)
  {
    var front, c := s[..|s| - 1], s[|s| - 1];
    var v := DecimalValue(front).value;
    DecimalStep(v, c);
    assert s == front + [c];
    if front == [] {
      assert s == Zeros(0) + Decimal(n);
    } else {
      ValueNames(front, v);
      var k: nat :| front == Zeros(k) + Decimal(v);
      if v == 0 {
        ZerosMore(k);
        assert Decimal(0) == ['0'];
        assert s == Zeros(k + 1) + Decimal(n);
      } else {
        assert s == Zeros(k) + (Decimal(v) + [c]);
      }
    }
  }

  lemma {:induction false} ZerosRead(k: nat, s: string)
    requires s != []
    ensures DecimalValue(Zeros(k) + s) == DecimalValue(s)
    decreases |s|
  {
    var t := Zeros(k) + s;
    assert t[..|t| - 1] == Zeros(k) + s[..|s| - 1];
    if |s| > 1 {
      ZerosRead(k, s[..|s| - 1]);
    } else {
      assert Zeros(k) + [] == Zeros(k);
      OnlyZeros(k);
      assert s[..|s| - 1] == [];
    }
  }

  lemma {:induction false} OnlyZeros(k: nat)
    ensures DecimalValue(Zeros(k)) == Some(0)
  {
    if k > 0 {
      OnlyZeros(k - 1);
      ZerosMore(k - 1);
      assert Zeros(k)[..k - 1] == Zeros(k - 1);
    }
  }

  lemma NumberReads(s: string, n: nat)
    requires NamesNumber(s, n)
    ensures s != [] && DecimalValue(s) == Some(n) && IsDigit(s[0])
  {
    var k: nat :| s == Zeros(k) + Decimal(n);
    DecimalReads(n);
    ZerosRead(k, Decimal(n));
    assert s[0] == if k > 0 then '0' else Decimal(n)[0];
  }

  /** A text is read as an integer exactly when it names one of 64 bits, a sign and leading zeros allowed. */
  lemma {:induction false} IntExactly(s: string, v: int)
    ensures ParseInt(s) == Some(v) <==> InI64(v) && NamesInt(s, v)
  {
    hide DecimalValue, NamesNumber;
    if ParseInt(s) == Some(v) {
      ValueNames(if s[0] == '+' || s[0] == '-' then s[1..] else s, if v < 0 then -v else v);
    }
    if InI64(v) && NamesInt(s, v) {
      if v >= 0 && NamesNumber(s, v) {
        NumberReads(s, v);
      } else {
        NumberReads(s[1..], if v < 0 then -v else v);
      }
    }
  }

  // ----- lines -----

  function StripCr(line: string): string {
    if line != [] && line[|line| - 1] == '\r' then line[..|line| - 1] else line
  }

  /** Where the first line feed stands, or the length. */
  function FeedAt(s: string): (n: nat)
    ensures n <= |s| && '\n' !in s[..n] && (n < |s| ==> s[n] == '\n')
  {
    if s == [] || s[0] == '\n' then 0 else
      var n := FeedAt(s[1..]);
      assert s[..n + 1] == [s[0]] + s[1..][..n];
      n + 1
  }

  /** A text's lines: each ends at a line feed, a carriage return before it dropped too. */
  function Lines(s: string): seq<string>
    decreases |s|
  {
    if s == [] then []
    else if FeedAt(s) == |s| then [s]
    else [StripCr(s[..FeedAt(s)])] + Lines(s[FeedAt(s) + 1..])
  }

  /** What follows the last line feed is a line too, as it is. */
  lemma LastLine(line: string)
    requires '\n' !in line
    ensures Lines(line) == if line == [] then [] else [line]
  {
  }

  /** The lines that hold something. */
  function Filled(lines: seq<string>): seq<string> {
    if lines == [] then [] else (if lines[0] == [] then [] else [lines[0]]) + Filled(lines[1..])
  }

  // ----- one column read -----

  /** What a column holds after some cells. */
  datatype Built = Built(values: seq<int>, uniques: seq<string>)

  function Fill(dtype: Dtype): int {
    if dtype == AsDouble then NULL_F64 else 0
  }

  function Add(b: Built, cell: string, dtype: Dtype, f: Floats): Option<Built> {
    if cell == [] then Some(b.(values := b.values + [Fill(dtype)])) else
      match dtype
      case AsDouble => (match f.parse(cell) case Some(v) => Some(b.(values := b.values + [v])) case None => None)
      case AsInt => (match ParseInt(cell) case Some(v) => Some(b.(values := b.values + [v])) case None => None)
      case AsText => Some(Built(b.values + [IndexOf(b.uniques, cell)], Pooled(b.uniques, cell)))
  }

  /** A column's cells one after another; the error is the first row refused. */
  function Build(cells: seq<string>, dtype: Dtype, f: Floats): Result<Built, nat> {
    if cells == [] then Ok(Built([], [])) else
      match Build(cells[..|cells| - 1], dtype, f)
      case Err(row) => Err(row)
      case Ok(b) =>
        match Add(b, cells[|cells| - 1], dtype, f)
        case None => Err(|cells| - 1)
        case Some(next) => Ok(next)
  }

  function Validity(cells: seq<string>, dtype: Dtype): seq<int> {
    if dtype == AsDouble || [] !in cells then [] else seq(|cells|, i requires 0 <= i < |cells| => if cells[i] == [] then 0 else 1)
  }

  function Typed(dtype: Dtype, values: seq<int>, uniques: seq<string>): Column {
    match dtype
    case AsDouble => Doubles(values)
    case AsInt => Ints(values)
    case AsText => Texts(values, uniques)
  }

  function ColumnOf(name: string, cells: seq<string>, dtype: Dtype, f: Floats): Result<Decoded, CsvError> {
    match Build(cells, dtype, f)
    case Err(row) => Err(BadCell(name, row))
    case Ok(b) =>
      Ok(Decoded(name, Typed(dtype, b.values, b.uniques), Validity(cells, dtype)))
  }

  lemma {:induction false} ErrorStands(cells: seq<string>, n: nat, dtype: Dtype, f: Floats)
    requires n <= |cells| && Build(cells[..n], dtype, f).Err?
    ensures Build(cells, dtype, f) == Build(cells[..n], dtype, f)
    decreases |cells| - n
  {
    if n == |cells| {
      assert cells[..n] == cells;
    } else {
      assert cells[..n + 1][..n] == cells[..n];
      ErrorStands(cells, n + 1, dtype, f);
    }
  }

  method ReadColumn(name: string, cells: seq<string>, dtype: Dtype, f: Floats) returns (r: Result<Decoded, CsvError>)
    ensures r == ColumnOf(name, cells, dtype, f)
  {
    hide ParseInt, Build, IndexOf;
    NothingBuilt(cells, dtype, f);
    var nulls: seq<int> := [];
    var values: seq<int> := [];
    var uniques: seq<string> := [];
    var index: map<string, int> := map[];
    for row := 0 to |cells|
      invariant Build(cells[..row], dtype, f) == Ok(Built(values, uniques))
      invariant nulls == seq(row, i requires 0 <= i < row => if cells[i] == [] then 1 else 0)
      invariant forall t :: t in index <==> t in uniques
      invariant forall t | t in index :: index[t] == IndexOf(uniques, t)
    {
      var cell := cells[row];
      BuildStep(cells, row, dtype, f);
      if cell == [] {
        nulls := nulls + [1];
        values := values + [Fill(dtype)];
        continue;
      }
      nulls := nulls + [0];
      match dtype {
        case AsDouble =>
          var v := f.parse(cell);
          if v.None? {
            ErrorStands(cells, row + 1, dtype, f);
            return Err(BadCell(name, row));
          }
          values := values + [v.value];
        case AsInt =>
          var v := ParseInt(cell);
          if v.None? {
            ErrorStands(cells, row + 1, dtype, f);
            return Err(BadCell(name, row));
          }
          values := values + [v.value];
        case AsText =>
          var code: int;
          if cell in index {
            code := index[cell];
          } else {
            code := |uniques|;
            NewCode(uniques, cell);
            PoolKeeps(uniques, cell);
            uniques := uniques + [cell];
            index := index[cell := code];
          }
          values := values + [code];
      }
    }
    assert cells[..|cells|] == cells;
    hide Add;
    var valid: seq<int> := [];
    AnyNull(nulls, cells);
    if dtype != AsDouble && 1 in nulls {
      valid := seq(|nulls|, i requires 0 <= i < |nulls| => 1 - nulls[i]);
    }
    assert valid == Validity(cells, dtype);
    return Ok(Decoded(name, Typed(dtype, values, uniques), valid));
  }

  lemma NewCode(uniques: seq<string>, cell: string)
    requires cell !in uniques
    ensures IndexOf(uniques, cell) == |uniques|
  {
  }

  lemma NothingBuilt(cells: seq<string>, dtype: Dtype, f: Floats)
    ensures Build(cells[..0], dtype, f) == Ok(Built([], []))
  {
  }

  lemma BuildStep(cells: seq<string>, row: nat, dtype: Dtype, f: Floats)
    requires row < |cells| && Build(cells[..row], dtype, f).Ok?
    ensures var added := Add(Build(cells[..row], dtype, f).value, cells[row], dtype, f);
      Build(cells[..row + 1], dtype, f) == if added.Some? then Ok(added.value) else Err(row)
  {
    assert cells[..row + 1][..row] == cells[..row];
  }

  lemma AnyNull(nulls: seq<int>, cells: seq<string>)
    requires |nulls| == |cells|
    requires forall i :: 0 <= i < |cells| ==> nulls[i] == if cells[i] == [] then 1 else 0
    ensures 1 in nulls <==> [] in cells
  {
    if 1 in nulls {
      var i :| 0 <= i < |nulls| && nulls[i] == 1;
      assert cells[i] == [];
    }
    if [] in cells {
      var i :| 0 <= i < |cells| && cells[i] == [];
      assert nulls[i] == 1;
    }
  }

  /** A new text takes no other's code. */
  lemma {:induction false} PoolKeeps(uniques: seq<string>, t: string)
    ensures forall u | u in uniques :: IndexOf(uniques + [t], u) == IndexOf(uniques, u)
    ensures t !in uniques ==> IndexOf(uniques + [t], t) == |uniques|
  {
    if uniques != [] {
      assert (uniques + [t])[1..] == uniques[1..] + [t];
      PoolKeeps(uniques[1..], t);
    }
  }

  // ----- what a column read says -----

  /** What a cell of the file means under a type: a double that is the null's NaN is the null. */
  function Meaning(cell: string, dtype: Dtype, f: Floats): Option<Cell> {
    if cell == [] then Some(Null) else
      match dtype
      case AsDouble => (match f.parse(cell) case Some(v) => Some(if v == NULL_F64 then Null else Double(v)) case None => None)
      case AsInt => (match ParseInt(cell) case Some(v) => Some(Int(v)) case None => None)
      case AsText => Some(Str(cell))
  }

  ghost predicate Holds(b: Built, cells: seq<string>, dtype: Dtype, f: Floats) {
    && |b.values| == |cells| && Distinct(b.uniques)
    && (forall i :: 0 <= i < |b.uniques| ==> b.uniques[i] in cells)
    && forall i :: 0 <= i < |cells| ==> HoldsCell(b, i, cells[i], dtype, f)
  }

  ghost predicate HoldsCell(b: Built, i: nat, cell: string, dtype: Dtype, f: Floats)
    requires i < |b.values|
  {
    if cell == [] then b.values[i] == Fill(dtype) else
      match dtype
      case AsDouble => f.parse(cell) == Some(b.values[i])
      case AsInt => ParseInt(cell) == Some(b.values[i])
      case AsText => 0 <= b.values[i] < |b.uniques| && b.uniques[b.values[i]] == cell
  }

  /** A column is read exactly when every cell means something; then every row holds its cell. */
  lemma {:induction false} BuildHolds(cells: seq<string>, dtype: Dtype, f: Floats)
    ensures Build(cells, dtype, f).Ok? <==> forall i :: 0 <= i < |cells| ==> Meaning(cells[i], dtype, f).Some?
    ensures Build(cells, dtype, f).Ok? ==> Holds(Build(cells, dtype, f).value, cells, dtype, f)
    ensures Build(cells, dtype, f).Err? ==>
              var row := Build(cells, dtype, f).error;
              && row < |cells| && Meaning(cells[row], dtype, f).None?
              && forall i :: 0 <= i < row ==> Meaning(cells[i], dtype, f).Some?
  {
    hide ParseInt, Distinct;
    if cells != [] {
      var front, last := cells[..|cells| - 1], cells[|cells| - 1];
      BuildHolds(front, dtype, f);
      assert cells == front + [last];
      assert forall i :: 0 <= i < |front| ==> cells[i] == front[i];
      assert cells[|front|] == last;
      hide Add, Meaning, Holds;
      if Build(front, dtype, f).Ok? {
        AddHolds(Build(front, dtype, f).value, front, last, dtype, f);
      }
    } else {
      NoneDistinct();
    }
  }

  lemma NoneDistinct()
    ensures Distinct<string>([])
  {
  }

  lemma AddHolds(b: Built, cells: seq<string>, cell: string, dtype: Dtype, f: Floats)
    requires Holds(b, cells, dtype, f)
    ensures Add(b, cell, dtype, f).Some? <==> Meaning(cell, dtype, f).Some?
    ensures Add(b, cell, dtype, f).Some? ==> Holds(Add(b, cell, dtype, f).value, cells + [cell], dtype, f)
  {
    hide ParseInt;
    var added := Add(b, cell, dtype, f);
    if added.Some? {
      var next := added.value;
      forall i | 0 <= i <= |cells|
        ensures HoldsCell(next, i, (cells + [cell])[i], dtype, f)
      {
        if i < |cells| {
          assert HoldsCell(b, i, cells[i], dtype, f);
        }
      }
      forall i | 0 <= i < |next.uniques|
        ensures next.uniques[i] in cells + [cell]
      {
        if i < |b.uniques| {
          assert b.uniques[i] in cells;
        }
      }
    }
  }

  /** A decoded column says of every row what its cell means. */
  ghost predicate Says(d: Decoded, cells: seq<string>, dtype: Dtype, f: Floats) {
    && |d.column.values| == |cells|
    && (d.column.Texts? <==> dtype == AsText) && (d.column.Ints? <==> dtype == AsInt)
    && forall i :: 0 <= i < |cells| ==>
      && (d.column.Texts? && !IsNull(d, i) ==> 0 <= d.column.values[i] < |d.column.uniques|)
      && Meaning(cells[i], dtype, f) == Some(Shown(d, i))
      && (cells[i] == [] ==> d.column.values[i] == if dtype == AsDouble then NULL_F64 else 0)
  }

  lemma {:induction false} ColumnSays(name: string, cells: seq<string>, dtype: Dtype, f: Floats)
    ensures ColumnOf(name, cells, dtype, f).Ok? <==> forall i :: 0 <= i < |cells| ==> Meaning(cells[i], dtype, f).Some?
    ensures ColumnOf(name, cells, dtype, f).Ok? ==> Says(ColumnOf(name, cells, dtype, f).value, cells, dtype, f)
    ensures ColumnOf(name, cells, dtype, f).Ok? ==> ColumnOf(name, cells, dtype, f).value.name == name
  {
    hide ParseInt, Build;
    BuildHolds(cells, dtype, f);
    var r := ColumnOf(name, cells, dtype, f);
    if r.Ok? {
      var b := Build(cells, dtype, f).value;
      forall i | 0 <= i < |cells|
        ensures r.value.column.Texts? && !IsNull(r.value, i) ==> 0 <= r.value.column.values[i] < |r.value.column.uniques|
        ensures Meaning(cells[i], dtype, f) == Some(Shown(r.value, i))
        ensures cells[i] == [] ==> r.value.column.values[i] == if dtype == AsDouble then NULL_F64 else 0
      {
        assert HoldsCell(b, i, cells[i], dtype, f);
        assert cells[i] == [] ==> [] in cells;
      }
    }
  }
}
