/** What a table written as CSV looks like, line by line, and how its lines are split again. */
module CsvWritten {
  import opened Prelude
  import opened Text
  import opened Table
  import opened CsvLine
  import opened Csv
  import opened CsvTable

  // ----- what is written -----

  /** A column of integers or texts, as long as the table, whose codes and integers are in range. */
  ghost predicate Fits(w: Writable, rows: nat) {
    && !w.column.Doubles? && |w.column.values| == rows
    && forall i :: 0 <= i < rows && !WrittenNull(w, i) ==>
      && (w.column.Ints? ==> InI64(w.column.values[i]))
      && (w.column.Texts? ==> 0 <= w.column.values[i] < |w.column.uniques|)
  }

  ghost predicate AllFit(columns: seq<Writable>, rows: nat) {
    forall i :: 0 <= i < |columns| ==> Fits(columns[i], rows)
  }

  /** No line feed in a column's name or texts: the reader is by lines. */
  ghost predicate Feedless(columns: seq<Writable>, rows: nat)
    requires AllFit(columns, rows)
  {
    && (forall i :: 0 <= i < |columns| ==> '\n' !in columns[i].name)
    && forall i, row :: 0 <= i < |columns| && 0 <= row < rows ==> '\n' !in Raw(columns[i], row, rows)
  }

  predicate EndsCr(s: string) {
    s != [] && s[|s| - 1] == '\r'
  }

  /** A row's text before it is quoted. */
  ghost function Raw(w: Writable, row: nat, rows: nat): string
    requires Fits(w, rows) && row < rows
  {
    if WrittenNull(w, row) then [] else
      match w.column
      case Ints(values) => ShowInt(values[row])
      case Texts(codes, uniques) => uniques[codes[row]]
  }

  ghost function Raws(columns: seq<Writable>, row: nat, rows: nat): (r: seq<string>)
    requires AllFit(columns, rows) && row < rows
    ensures |r| == |columns|
  {
    seq(|columns|, i requires 0 <= i < |columns| => Raw(columns[i], row, rows))
  }

  /** A row's field as it is written: texts are quoted where they must be, integers never. */
  ghost function Out(w: Writable, row: nat, rows: nat, d: char): string
    requires Fits(w, rows) && row < rows
  {
    if w.column.Texts? then Quoted(Raw(w, row, rows), d) else Raw(w, row, rows)
  }

  ghost function Outs(columns: seq<Writable>, row: nat, rows: nat, d: char): (r: seq<string>)
    requires AllFit(columns, rows) && row < rows
    ensures |r| == |columns|
  {
    seq(|columns|, i requires 0 <= i < |columns| => Out(columns[i], row, rows, d))
  }

  ghost function OutLines(columns: seq<Writable>, row: nat, rows: nat, d: char): (r: seq<string>)
    requires AllFit(columns, rows) && row <= rows
    ensures |r| == rows - row
  {
    seq(rows - row, k requires 0 <= k < rows - row => Join(Outs(columns, row + k, rows, d), d))
  }

  /** The delimiter parts the fields of a line: neither the quote, nor what ends the line. */
  predicate Parts(columns: seq<Writable>, d: char) {
    |columns| >= 2 ==> d != QUOTE && d != '\n'
  }

  function Header(columns: seq<Writable>, d: char): string {
    Join(QuotedAll(Names(columns), d), d)
  }

  function Ended(lines: seq<string>): string {
    if lines == [] then [] else lines[0] + "\n" + Ended(lines[1..])
  }

  lemma FieldIs(w: Writable, row: nat, rows: nat, d: char, f: Floats)
    requires Fits(w, rows) && row < rows
    ensures FieldText(w, row, d, f) == Ok(Out(w, row, rows, d))
  {
  }

  lemma {:induction false} FieldsAre(columns: seq<Writable>, row: nat, rows: nat, d: char, f: Floats)
    requires AllFit(columns, rows) && row < rows
    ensures SameRows(columns, rows) && FieldTexts(columns, row, rows, d, f) == Ok(Outs(columns, row, rows, d))
  {
    hide Fits, FieldText, Out;
    if columns != [] {
      FitsRows(columns, rows);
      FieldIs(columns[0], row, rows, d, f);
      FieldsAre(columns[1..], row, rows, d, f);
      assert Outs(columns, row, rows, d) == [Out(columns[0], row, rows, d)] + Outs(columns[1..], row, rows, d);
    } else {
      assert Outs(columns, row, rows, d) == [];
    }
  }

  lemma FitsRows(columns: seq<Writable>, rows: nat)
    requires AllFit(columns, rows)
    ensures SameRows(columns, rows)
  {
  }

  lemma {:induction false} RowsAre(columns: seq<Writable>, row: nat, rows: nat, d: char, f: Floats)
    requires AllFit(columns, rows) && row <= rows
    ensures SameRows(columns, rows)
    ensures RowTexts(columns, row, rows, d, f) == Ok(Ended(OutLines(columns, row, rows, d)))
    decreases rows - row
  {
    hide AllFit, FieldTexts, Outs, Join;
    FitsRows(columns, rows);
    if row < rows {
      FieldsAre(columns, row, rows, d, f);
      RowsAre(columns, row + 1, rows, d, f);
      assert OutLines(columns, row, rows, d)[1..] == OutLines(columns, row + 1, rows, d);
    }
  }

  /** The text written: the names' line, then one for each row. */
  lemma {:induction false} TextIs(columns: seq<Writable>, rows: nat, d: char, f: Floats)
    requires columns != [] && AllFit(columns, rows)
    ensures TableText(columns, true, d, f) == Ok(Ended([Header(columns, d)] + OutLines(columns, 0, rows, d)))
  {
    RowsAre(columns, 0, rows, d, f);
    assert Fits(columns[0], rows);
    hide RowTexts, OutLines, Join, QuotedAll, Fits;
    var lines := OutLines(columns, 0, rows, d);
    assert ([Header(columns, d)] + lines)[1..] == lines;
  }

  // ----- lines -----

  lemma {:induction false} FeedAfter(line: string, rest: string)
    requires '\n' !in line
    ensures FeedAt(line + "\n" + rest) == |line|
  {
    var s := line + "\n" + rest;
    if line != [] {
      assert s[1..] == line[1..] + "\n" + rest;
      FeedAfter(line[1..], rest);
    }
  }

  lemma {:induction false} LineFirst(line: string, rest: string)
    requires '\n' !in line
    ensures Lines(line + "\n" + rest) == [StripCr(line)] + Lines(rest)
  {
    var s := line + "\n" + rest;
    assert s[|line|] == '\n';
    FeedAfter(line, rest);
    assert s[..|line|] == line && s[|line| + 1..] == rest;
  }

  function Stripped(lines: seq<string>): (r: seq<string>)
    ensures |r| == |lines|
  {
    seq(|lines|, i requires 0 <= i < |lines| => StripCr(lines[i]))
  }

  lemma {:induction false} LinesEnded(lines: seq<string>)
    requires forall i :: 0 <= i < |lines| ==> '\n' !in lines[i]
    ensures Lines(Ended(lines)) == Stripped(lines)
  {
    hide Lines, StripCr;
    if lines != [] {
      LineFirst(lines[0], Ended(lines[1..]));
      LinesEnded(lines[1..]);
      assert [StripCr(lines[0])] + Stripped(lines[1..]) == Stripped(lines);
    } else {
      NoLines();
    }
  }

  lemma NoLines()
    ensures Lines([]) == []
  {
  }

  lemma {:induction false} DoubledFree(s: string, c: char)
    requires c != QUOTE && c !in s
    ensures c !in Doubled(s)
  {
    if s != [] {
      assert s == [s[0]] + s[1..];
      DoubledFree(s[1..], c);
    }
  }

  lemma QuotedFree(s: string, d: char, c: char)
    requires c != QUOTE && c !in s
    ensures c !in Quoted(s, d)
  {
    DoubledFree(s, c);
  }

  lemma {:induction false} QuotedAllAt(fields: seq<string>, d: char, i: nat)
    requires i < |fields|
    ensures QuotedAll(fields, d)[i] == Quoted(fields[i], d)
  {
    hide Quoted;
    if i > 0 {
      QuotedAllAt(fields[1..], d, i - 1);
    }
  }

  lemma {:induction false} QuotedAllFront(fields: seq<string>, d: char)
    requires fields != []
    ensures QuotedAll(fields, d)[..|fields| - 1] == QuotedAll(fields[..|fields| - 1], d)
  {
    hide QuotedAll, Quoted;
    var front := fields[..|fields| - 1];
    forall i | 0 <= i < |front|
      ensures QuotedAll(fields, d)[i] == QuotedAll(front, d)[i]
    {
      QuotedAllAt(fields, d, i);
      QuotedAllAt(front, d, i);
    }
  }

  /** A character in no field, and not between two, is not in the line. */
  lemma {:induction false} JoinFree(fields: seq<string>, d: char, c: char)
    requires (forall i :: 0 <= i < |fields| ==> c !in fields[i]) && (d != c || |fields| <= 1)
    ensures c !in Join(fields, d)
  {
    if |fields| > 1 {
      JoinFree(fields[1..], d, c);
    }
  }

  lemma {:induction false} JoinLast(fields: seq<string>, d: char)
    requires |fields| >= 2
    ensures Join(fields, d) == Join(fields[..|fields| - 1], d) + [d] + fields[|fields| - 1]
  {
    var n := |fields| - 1;
    if n == 1 {
      assert fields[1..] == [fields[1]] && fields[..1] == [fields[0]];
    } else {
      JoinLast(fields[1..], d);
      assert fields[1..][..n - 1] == fields[..n][1..];
      assert fields[1..][n - 1] == fields[n];
      var front := Join(fields[..n][1..], d);
      assert Join(fields[1..], d) == front + [d] + fields[n];
      assert fields[0] + [d] + (front + [d] + fields[n]) == (fields[0] + [d] + front) + [d] + fields[n];
    }
  }

  // ----- what is left of a line -----

  /** A carriage return that joins an empty last field is taken for part of the line's end. */
  predicate Shortens(fields: seq<string>, d: char) {
    d == '\r' && |fields| >= 2 && fields[|fields| - 1] == []
  }

  function Kept(fields: seq<string>, d: char): (r: seq<string>)
    ensures fields != [] ==> r != []
  {
    if Shortens(fields, d) then fields[..|fields| - 1] else fields
  }

  /** The line holds nothing: one empty field, or two with a carriage return between. */
  predicate Lost(fields: seq<string>, d: char) {
    fields == [[]] || (d == '\r' && fields == [[], []])
  }

  lemma {:induction false} StripJoin(fields: seq<string>, d: char)
    requires fields != [] && !EndsCr(fields[|fields| - 1])
    ensures StripCr(Join(fields, d)) == Join(Kept(fields, d), d)
  {
    var n := |fields| - 1;
    if n > 0 {
      JoinLast(fields, d);
      var line := Join(fields, d);
      if fields[n] == [] {
        assert line[..|line| - 1] == Join(fields[..n], d);
      } else {
        assert line[|line| - 1] == fields[n][|fields[n]| - 1];
      }
    }
  }

  /** The last field without the carriage return it ends with. */
  function Trimmed(fields: seq<string>): (r: seq<string>)
    requires fields != []
    ensures |r| == |fields|
  {
    fields[|fields| - 1 := StripCr(fields[|fields| - 1])]
  }

  lemma {:induction false} StripTrims(fields: seq<string>, d: char)
    requires fields != [] && EndsCr(fields[|fields| - 1])
    ensures StripCr(Join(fields, d)) == Join(Trimmed(fields), d)
  {
    var n := |fields| - 1;
    if n > 0 {
      JoinLast(fields, d);
      JoinLast(Trimmed(fields), d);
      assert Trimmed(fields)[..n] == fields[..n];
      var line := Join(fields, d);
      assert line[|line| - 1] == fields[n][|fields[n]| - 1];
      assert line[..|line| - 1] == Join(fields[..n], d) + [d] + fields[n][..|fields[n]| - 1];
    }
  }

  lemma JoinEmpty(fields: seq<string>, d: char)
    requires fields != []
    ensures Join(fields, d) == [] <==> fields == [[]]
  {
    if |fields| == 1 {
      assert fields == [fields[0]];
    }
  }

  lemma {:induction false} LostLine(fields: seq<string>, d: char)
    requires fields != [] && !EndsCr(fields[|fields| - 1])
    ensures StripCr(Join(fields, d)) == [] <==> Lost(fields, d)
  {
    StripJoin(fields, d);
    JoinEmpty(Kept(fields, d), d);
    if Shortens(fields, d) {
      var n := |fields| - 1;
      assert fields == fields[..n] + [fields[n]];
    }
  }

  // ----- the lines written -----

  lemma ShowsFree(v: int, c: char)
    requires !IsDigit(c) && c != '-'
    ensures c !in ShowInt(v)
  {
    ParseShows(v);
  }

  lemma OutFree(w: Writable, row: nat, rows: nat, d: char, c: char)
    requires Fits(w, rows) && row < rows && c != QUOTE && c !in Raw(w, row, rows)
    ensures c !in Out(w, row, rows, d)
  {
    QuotedFree(Raw(w, row, rows), d, c);
  }

  lemma {:induction false} OutLineFeedless(columns: seq<Writable>, row: nat, rows: nat, d: char)
    requires AllFit(columns, rows) && Feedless(columns, rows) && row < rows && (d != '\n' || |columns| <= 1)
    ensures '\n' !in OutLines(columns, 0, rows, d)[row]
  {
    hide Join, Fits, Raw, Out;
    forall i | 0 <= i < |columns|
      ensures '\n' !in Outs(columns, row, rows, d)[i]
    {
      OutFree(columns[i], row, rows, d, '\n');
    }
    JoinFree(Outs(columns, row, rows, d), d, '\n');
  }

  lemma {:induction false} HeaderFeedless(columns: seq<Writable>, d: char)
    requires (forall i :: 0 <= i < |columns| ==> '\n' !in columns[i].name) && (d != '\n' || |columns| <= 1)
    ensures '\n' !in Header(columns, d)
  {
    hide Join, QuotedAll, Quoted;
    forall i | 0 <= i < |columns|
      ensures '\n' !in QuotedAll(Names(columns), d)[i]
    {
      QuotedAllAt(Names(columns), d, i);
      QuotedFree(columns[i].name, d, '\n');
    }
    JoinFree(QuotedAll(Names(columns), d), d, '\n');
  }

  lemma {:induction false} AllFeedless(columns: seq<Writable>, rows: nat, d: char)
    requires columns != [] && AllFit(columns, rows) && Feedless(columns, rows) && Parts(columns, d)
    ensures forall l :: l in [Header(columns, d)] + OutLines(columns, 0, rows, d) ==> '\n' !in l
  {
    HeaderFeedless(columns, d);
    hide Header, Feedless;
    forall i | 0 <= i < rows
      ensures '\n' !in OutLines(columns, 0, rows, d)[i]
    {
      OutLineFeedless(columns, i, rows, d);
    }
  }

  /** The lines of the text written: each without a carriage return at its end. */
  lemma {:induction false} WrittenLines(columns: seq<Writable>, rows: nat, d: char, f: Floats)
    requires columns != [] && AllFit(columns, rows) && Feedless(columns, rows) && Parts(columns, d)
    ensures TableText(columns, true, d, f).Ok?
    ensures Lines(TableText(columns, true, d, f).value)
         == [StripCr(Header(columns, d))] + Stripped(OutLines(columns, 0, rows, d))
  {
    hide TableText, Header, OutLines, Lines, StripCr, Feedless, AllFit;
    TextIs(columns, rows, d, f);
    AllFeedless(columns, rows, d);
    var body := OutLines(columns, 0, rows, d);
    LinesEnded([Header(columns, d)] + body);
    assert Stripped([Header(columns, d)] + body) == [StripCr(Header(columns, d))] + Stripped(body);
  }

  /** Dropping the empty lines keeps the count exactly when there is none. */
  lemma {:induction false} FilledAll(lines: seq<string>)
    ensures |Filled(lines)| <= |lines|
    ensures |Filled(lines)| == |lines| <==> [] !in lines
    ensures [] !in lines ==> Filled(lines) == lines
    ensures forall l :: l in Filled(lines) ==> l in lines
  {
    if lines != [] {
      FilledAll(lines[1..]);
      assert lines == [lines[0]] + lines[1..];
    }
  }

  /** A field is written empty exactly when its text is. */
  lemma OutEmpty(w: Writable, row: nat, rows: nat, d: char)
    requires Fits(w, rows) && row < rows
    ensures Out(w, row, rows, d) == [] <==> Raw(w, row, rows) == []
  {
  }

  lemma {:induction false} OutsLost(columns: seq<Writable>, row: nat, rows: nat, d: char)
    requires AllFit(columns, rows) && row < rows
    ensures Lost(Outs(columns, row, rows, d), d) <==> Lost(Raws(columns, row, rows), d)
  {
    hide Fits, Out, Raw;
    var raws, outs := Raws(columns, row, rows), Outs(columns, row, rows, d);
    forall i | 0 <= i < |columns|
      ensures outs[i] == [] <==> raws[i] == []
    {
      OutEmpty(columns[i], row, rows, d);
    }
  }

  // ----- a line split again -----

  /** No integer of the row has the delimiter among its digits or as its sign. */
  ghost predicate Apart(w: Writable, row: nat, rows: nat, d: char)
    requires Fits(w, rows) && row < rows
  {
    w.column.Ints? ==> d !in Raw(w, row, rows)
  }

  lemma OutIsQuoted(w: Writable, row: nat, rows: nat, d: char)
    requires Fits(w, rows) && row < rows && Apart(w, row, rows, d)
    ensures Out(w, row, rows, d) == Quoted(Raw(w, row, rows), d)
  {
    if w.column.Ints? && !WrittenNull(w, row) {
      ShowsFree(w.column.values[row], QUOTE);
      ShowsFree(w.column.values[row], '\n');
    }
  }

  lemma {:induction false} OutsAreQuoted(columns: seq<Writable>, row: nat, rows: nat, d: char)
    requires AllFit(columns, rows) && row < rows
    requires forall i :: 0 <= i < |columns| ==> Apart(columns[i], row, rows, d)
    ensures Outs(columns, row, rows, d) == QuotedAll(Raws(columns, row, rows), d)
  {
    hide Fits, Out, Raw, Quoted, QuotedAll, Apart;
    forall i | 0 <= i < |columns|
      ensures Outs(columns, row, rows, d)[i] == QuotedAll(Raws(columns, row, rows), d)[i]
    {
      OutIsQuoted(columns[i], row, rows, d);
      QuotedAllAt(Raws(columns, row, rows), d, i);
    }
  }

  /** Fields written on a line are read again, but for an empty last one after a carriage return. */
  lemma {:induction false} LineReads(fields: seq<string>, d: char)
    requires fields != [] && (d != QUOTE || |fields| == 1) && !EndsCr(Quoted(fields[|fields| - 1], d))
    ensures Split(StripCr(Join(QuotedAll(fields, d), d)), d) == Kept(fields, d)
  {
    hide Split, Join, QuotedAll, Quoted, StripCr;
    var q := QuotedAll(fields, d);
    QuotedAllAt(fields, d, |fields| - 1);
    StripJoin(q, d);
    QuotedEmpty(fields[|fields| - 1], d);
    QuotedAllFront(fields, d);
    SplitUndoesJoin(Kept(fields, d), d);
  }

  /** A last one that is not quoted and ends in a carriage return comes back without it. */
  lemma {:induction false} LineTrims(fields: seq<string>, d: char)
    requires fields != [] && (d != QUOTE || |fields| == 1) && EndsCr(Quoted(fields[|fields| - 1], d))
    ensures Split(StripCr(Join(QuotedAll(fields, d), d)), d) == Trimmed(fields)
    ensures Trimmed(fields)[|fields| - 1] != fields[|fields| - 1]
  {
    QuotedAllAt(fields, d, |fields| - 1);
    TrimQuoted(fields[|fields| - 1], d);
    TrimmedQuoted(fields, d);
    hide Split, Join, QuotedAll, Quoted, StripCr, EndsCr;
    StripTrims(QuotedAll(fields, d), d);
    SplitUndoesJoin(Trimmed(fields), d);
  }

  lemma {:induction false} TrimmedQuoted(fields: seq<string>, d: char)
    requires fields != [] && EndsCr(Quoted(fields[|fields| - 1], d))
    ensures Trimmed(QuotedAll(fields, d)) == QuotedAll(Trimmed(fields), d)
  {
    TrimQuoted(fields[|fields| - 1], d);
    hide QuotedAll, Quoted, StripCr, EndsCr;
    forall i | 0 <= i < |fields|
      ensures Trimmed(QuotedAll(fields, d))[i] == QuotedAll(Trimmed(fields), d)[i]
    {
      QuotedAllAt(fields, d, i);
      QuotedAllAt(Trimmed(fields), d, i);
    }
  }

  lemma TrimQuoted(s: string, d: char)
    requires EndsCr(Quoted(s, d))
    ensures Quoted(s, d) == s && Quoted(StripCr(s), d) == StripCr(s) && StripCr(s) != s && s != []
  {
    assert forall c :: c in StripCr(s) ==> c in s;
  }

  lemma QuotedEmpty(s: string, d: char)
    ensures Quoted(s, d) == [] <==> s == []
  {
  }

  lemma {:induction false} RowReads(columns: seq<Writable>, row: nat, rows: nat, d: char)
    requires columns != [] && AllFit(columns, rows) && row < rows && (d != QUOTE || |columns| == 1)
    requires forall i :: 0 <= i < |columns| ==> Apart(columns[i], row, rows, d)
    ensures Split(StripCr(Join(Outs(columns, row, rows, d), d)), d)
         == if EndsCr(Out(columns[|columns| - 1], row, rows, d)) then Trimmed(Raws(columns, row, rows)) else Kept(Raws(columns, row, rows), d)
  {
    OutIsQuoted(columns[|columns| - 1], row, rows, d);
    hide Fits, Out, Raw, Apart, Split, Join, StripCr, QuotedAll, Quoted;
    OutsAreQuoted(columns, row, rows, d);
    if EndsCr(Out(columns[|columns| - 1], row, rows, d)) {
      LineTrims(Raws(columns, row, rows), d);
    } else {
      LineReads(Raws(columns, row, rows), d);
    }
  }

  /** Where `d` first stands in `t`. */
  function FirstAt(t: string, d: char): (p: nat)
    requires d in t
    ensures p < |t| && t[p] == d && d !in t[..p]
  {
    if t[0] == d then 0 else
      assert t == [t[0]] + t[1..];
      var p := FirstAt(t[1..], d);
      assert t[..p + 1] == [t[0]] + t[1..][..p];
      p + 1
  }

  lemma {:induction false} JoinStarts(fields: seq<string>, d: char)
    requires fields != []
    ensures Join(fields, d) == fields[0] + if |fields| == 1 then [] else [d] + Join(fields[1..], d)
  {
    assert fields[0] + [] == fields[0];
    if |fields| > 1 {
      assert fields[0] + [d] + Join(fields[1..], d) == fields[0] + ([d] + Join(fields[1..], d));
    }
  }

  /** A line's fields: where `cuts` says so the text as it is, with the delimiter in it; elsewhere the text quoted. */
  predicate FieldsOf(fields: seq<string>, raws: seq<string>, cuts: seq<bool>, d: char) {
    && |fields| == |raws| == |cuts|
    && forall i :: 0 <= i < |fields| ==>
         if cuts[i] then fields[i] == raws[i] && d in raws[i] && QUOTE !in raws[i] else fields[i] == Quoted(raws[i], d)
  }

  /** Such a text is cut short where the line is split. */
  lemma {:induction false} CutShort(fields: seq<string>, raws: seq<string>, cuts: seq<bool>, d: char) returns (j: nat)
    requires FieldsOf(fields, raws, cuts, d) && true in cuts && d != QUOTE
    ensures j < |cuts| && cuts[j]
    ensures var split := Split(Join(fields, d), d);
      j < |split| && |split[j]| < |raws[j]| && split[j] <= raws[j]
    decreases |fields|
  {
    hide Quoted, SplitFrom, Join;
    JoinStarts(fields, d);
    if cuts[0] {
      j := 0;
      CutAt(raws[0], FirstAt(raws[0], d), if |fields| == 1 then [] else [d] + Join(fields[1..], d), d);
    } else {
      var i :| 0 <= i < |cuts| && cuts[i];
      assert cuts[1..][i - 1];
      var tail := [d] + Join(fields[1..], d);
      QuotedReads(raws[0], tail, d);
      DelimiterSplits(Join(fields[1..], d), raws[0], d);
      var k := CutShort(fields[1..], raws[1..], cuts[1..], d);
      j := k + 1;
    }
  }

  lemma DelimiterSplits(rest: string, field: string, d: char)
    requires d != QUOTE
    ensures SplitFrom([d] + rest, field, false, d) == [field] + SplitFrom(rest, [], false, d)
  {
    assert ([d] + rest)[1..] == rest;
  }

  ghost function Cuts(columns: seq<Writable>, row: nat, rows: nat, d: char): (r: seq<bool>)
    requires AllFit(columns, rows) && row < rows
    ensures |r| == |columns|
  {
    seq(|columns|, i requires 0 <= i < |columns| => !Apart(columns[i], row, rows, d))
  }

  lemma OutWhenCut(w: Writable, row: nat, rows: nat, d: char)
    requires Fits(w, rows) && row < rows && !Apart(w, row, rows, d)
    ensures Out(w, row, rows, d) == Raw(w, row, rows) && d in Raw(w, row, rows) && QUOTE !in Raw(w, row, rows)
    ensures d != QUOTE && d != '\r' && d != '\n' && !EndsCr(Out(w, row, rows, d))
    ensures w.column.Ints? && !WrittenNull(w, row)
  {
    ShowsFree(w.column.values[row], QUOTE);
    ShowsFree(w.column.values[row], '\r');
    ShowsFree(w.column.values[row], '\n');
  }

  lemma {:induction false} OutsFields(columns: seq<Writable>, row: nat, rows: nat, d: char)
    requires AllFit(columns, rows) && row < rows
    ensures FieldsOf(Outs(columns, row, rows, d), Raws(columns, row, rows), Cuts(columns, row, rows, d), d)
  {
    hide Fits, Raw, Out, Quoted, Apart;
    forall i | 0 <= i < |columns|
      ensures var raw, out := Raw(columns[i], row, rows), Out(columns[i], row, rows, d);
        if !Apart(columns[i], row, rows, d) then out == raw && d in raw && QUOTE !in raw else out == Quoted(raw, d)
    {
      if Apart(columns[i], row, rows, d) {
        OutIsQuoted(columns[i], row, rows, d);
      } else {
        OutWhenCut(columns[i], row, rows, d);
      }
    }
  }

  /** A trimmed line is that of the trimmed texts. */
  lemma {:induction false} TrimmedFields(fields: seq<string>, raws: seq<string>, cuts: seq<bool>, d: char)
    requires FieldsOf(fields, raws, cuts, d) && fields != [] && EndsCr(fields[|fields| - 1]) && !cuts[|cuts| - 1]
    ensures FieldsOf(Trimmed(fields), Trimmed(raws), cuts, d)
  {
    TrimQuoted(raws[|raws| - 1], d);
  }

  /** An integer with the delimiter in it is cut short where its line is split, whatever the line's end. */
  lemma {:induction false} IntegerCut(columns: seq<Writable>, row: nat, rows: nat, d: char) returns (j: nat)
    requires columns != [] && AllFit(columns, rows) && row < rows
    requires exists i :: 0 <= i < |columns| && !Apart(columns[i], row, rows, d)
    ensures j < |columns| && !Apart(columns[j], row, rows, d)
    ensures var cut := Split(StripCr(Join(Outs(columns, row, rows, d), d)), d);
      j < |cut| && |cut[j]| < |Raw(columns[j], row, rows)| && cut[j] <= Raw(columns[j], row, rows)
  {
    hide Fits, Raw, Out, Quoted, Split, Join, Apart, StripCr, FieldsOf;
    var outs, raws, cuts := Outs(columns, row, rows, d), Raws(columns, row, rows), Cuts(columns, row, rows, d);
    var i :| 0 <= i < |columns| && !Apart(columns[i], row, rows, d);
    assert cuts[i];
    OutWhenCut(columns[i], row, rows, d);
    OutsFields(columns, row, rows, d);
    var last := |columns| - 1;
    if EndsCr(outs[last]) {
      if cuts[last] {
        OutWhenCut(columns[last], row, rows, d);
      }
      StripTrims(outs, d);
      TrimmedFields(outs, raws, cuts, d);
      j := CutShort(Trimmed(outs), Trimmed(raws), cuts, d);
    } else {
      StripJoin(outs, d);
      j := CutShort(outs, raws, cuts, d);
    }
  }
}
