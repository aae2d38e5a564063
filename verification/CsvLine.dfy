/** One line of a CSV file: quoting, joining, splitting. */
module CsvLine {
  import opened Prelude

  const QUOTE: char := '"'

  // ----- writing -----

  function Doubled(field: string): string {
    if field == [] then [] else (if field[0] == QUOTE then [QUOTE, QUOTE] else [field[0]]) + Doubled(field[1..])
  }

  function Quoted(field: string, delimiter: char): string {
    if delimiter in field || QUOTE in field || '\n' in field then [QUOTE] + Doubled(field) + [QUOTE] else field
  }

  /** A field is written as it is exactly when it holds no delimiter, quote or line feed; else between quotes, its own doubled. */
  lemma QuotedExactly(field: string, delimiter: char)
    ensures Quoted(field, delimiter) == field <==> delimiter !in field && QUOTE !in field && '\n' !in field
    ensures Quoted(field, delimiter) != field ==> Quoted(field, delimiter) == [QUOTE] + Doubled(field) + [QUOTE]
  {
    LongerDoubled(field);
  }

  lemma {:induction false} LongerDoubled(field: string)
    ensures |Doubled(field)| >= |field|
  {
    if field != [] {
      LongerDoubled(field[1..]);
    }
  }

  function QuotedAll(fields: seq<string>, delimiter: char): (r: seq<string>)
    ensures |r| == |fields|
  {
    if fields == [] then [] else [Quoted(fields[0], delimiter)] + QuotedAll(fields[1..], delimiter)
  }

  function Join(fields: seq<string>, delimiter: char): string {
    if fields == [] then [] else if |fields| == 1 then fields[0] else fields[0] + [delimiter] + Join(fields[1..], delimiter)
  }

  // ----- reading -----

  /** The fields of what is left of a line, part of the first already read. */
  function SplitFrom(rest: string, field: string, quoted: bool, delimiter: char): (r: seq<string>)
    ensures r != []
    decreases |rest|
  {
    if rest == [] then [field]
    else if rest[0] == QUOTE && quoted && |rest| > 1 && rest[1] == QUOTE then
      SplitFrom(rest[2..], field + [QUOTE], quoted, delimiter)
    else if rest[0] == QUOTE then SplitFrom(rest[1..], field, !quoted, delimiter)
    else if rest[0] == delimiter && !quoted then [field] + SplitFrom(rest[1..], [], quoted, delimiter)
    else SplitFrom(rest[1..], field + [rest[0]], quoted, delimiter)
  }

  function Split(line: string, delimiter: char): (r: seq<string>)
    ensures r != []
  {
    SplitFrom(line, [], false, delimiter)
  }

  method SplitLine(line: string, delimiter: char) returns (out: seq<string>)
    ensures out == Split(line, delimiter)
  {
    out := [];
    var field: string := [];
    var quoted := false;
    var i := 0;
    assert line[0..] == line;
    while i < |line|
      invariant 0 <= i <= |line|
      invariant out + SplitFrom(line[i..], field, quoted, delimiter) == Split(line, delimiter)
    {
      var c := line[i];
      assert line[i..][1..] == line[i + 1..];
      i := i + 1;
      if c == QUOTE && quoted && i < |line| && line[i] == QUOTE {
        field := field + [QUOTE];
        assert line[i - 1..][2..] == line[i + 1..];
        i := i + 1;
      } else if c == QUOTE {
        quoted := !quoted;
      } else if c == delimiter && !quoted {
        ghost var later := SplitFrom(line[i..], [], quoted, delimiter);
        assert out + ([field] + later) == (out + [field]) + later;
        out := out + [field];
        field := [];
      } else {
        field := field + [c];
      }
    }
    out := out + [field];
  }

  // ----- splitting undoes joining -----

  ghost predicate Ends(rest: string, delimiter: char) {
    rest == [] || rest[0] == delimiter
  }

  lemma {:induction false} PlainReads(f: string, field: string, rest: string, delimiter: char)
    requires delimiter !in f && QUOTE !in f
    ensures SplitFrom(f + rest, field, false, delimiter) == SplitFrom(rest, field + f, false, delimiter)
  {
    if f == [] {
      assert f + rest == rest && field + f == field;
    } else {
      assert (f + rest)[1..] == f[1..] + rest;
      PlainReads(f[1..], field + [f[0]], rest, delimiter);
      assert field + [f[0]] + f[1..] == field + f;
    }
  }

  lemma {:induction false} DoubledReads(f: string, field: string, rest: string, delimiter: char)
    requires Ends(rest, delimiter) && (delimiter != QUOTE || rest == [])
    ensures SplitFrom(Doubled(f) + [QUOTE] + rest, field, true, delimiter) == SplitFrom(rest, field + f, false, delimiter)
  {
    var s := Doubled(f) + [QUOTE] + rest;
    if f == [] {
      assert s == [QUOTE] + rest && s[1..] == rest && field + f == field;
    } else {
      var tail := Doubled(f[1..]) + [QUOTE] + rest;
      assert field + [f[0]] + f[1..] == field + f;
      if f[0] == QUOTE {
        assert s == [QUOTE, QUOTE] + tail && s[2..] == tail;
      } else {
        assert s == [f[0]] + tail && s[1..] == tail;
      }
      DoubledReads(f[1..], field + [f[0]], rest, delimiter);
    }
  }

  lemma {:induction false} QuotedReads(f: string, rest: string, delimiter: char)
    requires Ends(rest, delimiter) && (delimiter != QUOTE || rest == [])
    ensures SplitFrom(Quoted(f, delimiter) + rest, [], false, delimiter) == SplitFrom(rest, f, false, delimiter)
  {
    assert [] + f == f;
    if delimiter in f || QUOTE in f || '\n' in f {
      var s := Quoted(f, delimiter) + rest;
      assert s == [QUOTE] + (Doubled(f) + [QUOTE] + rest);
      assert s[1..] == Doubled(f) + [QUOTE] + rest;
      DoubledReads(f, [], rest, delimiter);
    } else {
      PlainReads(f, [], rest, delimiter);
    }
  }

  /** Splitting the joined, quoted fields gives back any fields; a lone field even when the delimiter is the quote. */
  lemma {:induction false} SplitUndoesJoin(fields: seq<string>, delimiter: char)
    requires fields != [] && (delimiter != QUOTE || |fields| == 1)
    ensures Split(Join(QuotedAll(fields, delimiter), delimiter), delimiter) == fields
  {
    hide Quoted;
    var q := QuotedAll(fields, delimiter);
    if |fields| == 1 {
      QuotedReads(fields[0], [], delimiter);
      assert Quoted(fields[0], delimiter) + [] == Quoted(fields[0], delimiter);
    } else {
      var tail := [delimiter] + Join(q[1..], delimiter);
      assert Join(q, delimiter) == q[0] + tail;
      QuotedReads(fields[0], tail, delimiter);
      assert tail[1..] == Join(q[1..], delimiter);
      assert q[1..] == QuotedAll(fields[1..], delimiter);
      SplitUndoesJoin(fields[1..], delimiter);
      assert [fields[0]] + fields[1..] == fields;
    }
  }

  /** A line is one field when its delimiter is not in it, or is the quote. */
  lemma {:induction false} OneField(rest: string, field: string, quoted: bool, delimiter: char)
    requires delimiter == QUOTE || delimiter !in rest
    ensures |SplitFrom(rest, field, quoted, delimiter)| == 1
    decreases |rest|
  {
    if rest == [] {
    } else if rest[0] == QUOTE && quoted && |rest| > 1 && rest[1] == QUOTE {
      OneField(rest[2..], field + [QUOTE], quoted, delimiter);
    } else if rest[0] == QUOTE {
      OneField(rest[1..], field, !quoted, delimiter);
    } else {
      OneField(rest[1..], field + [rest[0]], quoted, delimiter);
    }
  }

  /** An unquoted field ends at the first delimiter in it. */
  lemma {:induction false} CutAt(t: string, p: nat, rest: string, delimiter: char)
    requires p < |t| && t[p] == delimiter != QUOTE && delimiter !in t[..p] && QUOTE !in t
    ensures SplitFrom(t + rest, [], false, delimiter)[0] == t[..p]
  {
    var tail := t[p..] + rest;
    assert t + rest == t[..p] + tail && tail[0] == delimiter;
    PlainReads(t[..p], [], tail, delimiter);
    assert [] + t[..p] == t[..p];
  }

  /** With the quote as delimiter, two fields run together. */
  lemma QuoteRunsTogether()
    ensures Split(Join(QuotedAll(["a", "b"], QUOTE), QUOTE), QUOTE) == ["ab"]
  {
    var q := QuotedAll(["a", "b"], QUOTE);
    assert ["a", "b"][1..] == ["b"] && ["b"][1..] == [];
    assert q == ["a", "b"] && q[1..] == ["b"];
    var s := Join(q, QUOTE);
    assert s == "a\"b";
    assert s[1..] == "\"b" && "\"b"[1..] == "b" && "b"[1..] == "";
    assert "a" + ['b'] == "ab" && [] + ['a'] == "a";
    assert SplitFrom("", "ab", true, QUOTE) == ["ab"];
    assert SplitFrom("b", "a", true, QUOTE) == ["ab"];
    assert SplitFrom("\"b", "a", false, QUOTE) == ["ab"];
  }

  /** Splitting undoes joining for all fields exactly when the delimiter is not the quote. */
  lemma SplitUndoesJoinExactly(delimiter: char)
    ensures (forall fields: seq<string> | fields != [] ::
               Split(Join(QuotedAll(fields, delimiter), delimiter), delimiter) == fields)
       <==> delimiter != QUOTE
  {
    if delimiter != QUOTE {
      forall fields: seq<string> | fields != []
        ensures Split(Join(QuotedAll(fields, delimiter), delimiter), delimiter) == fields
      {
        SplitUndoesJoin(fields, delimiter);
      }
    } else {
      QuoteRunsTogether();
      var fields := ["a", "b"];
      assert Split(Join(QuotedAll(fields, delimiter), delimiter), delimiter) != fields;
    }
  }
}
