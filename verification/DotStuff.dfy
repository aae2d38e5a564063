/** Mail bodies on the wire: CRLF lines, a leading dot doubled (section 4.5.2 of RFC 5321). */
module DotStuff {
  import opened Prelude

  const CRLF: string := "\r\n"

  // ----- the sender's side -----

  /** Every CRLF is made a line feed. */
  function Normalised(s: string): string {
    if s == [] then []
    else if |s| >= 2 && s[0] == '\r' && s[1] == '\n' then ['\n'] + Normalised(s[2..])
    else [s[0]] + Normalised(s[1..])
  }

  /** The pieces between line feeds. */
  function SplitLines(s: string): (lines: seq<string>)
    ensures lines != []
  {
    if s == [] then [[]]
    else if s[0] == '\n' then [[]] + SplitLines(s[1..])
    else
      var rest := SplitLines(s[1..]);
      [[s[0]] + rest[0]] + rest[1..]
  }

  function StuffedLine(line: string): string {
    (if line != [] && line[0] == '.' then "." else "") + line + CRLF
  }

  function Stuffed(lines: seq<string>): string {
    if lines == [] then [] else StuffedLine(lines[0]) + Stuffed(lines[1..])
  }

  function OnTheWire(body: string): string {
    Stuffed(SplitLines(Normalised(body)))
  }

  method Stuff(body: string) returns (out: string)
    ensures out == OnTheWire(body)
  {
    hide Stuffed, SplitLines, Normalised;
    out := "";
    var lines := SplitLines(Normalised(body));
    StuffStart(lines);
    for i := 0 to |lines|
      invariant out + Stuffed(lines[i..]) == Stuffed(lines)
    {
      var line := lines[i];
      StuffStep(lines, i, out);
      if line != [] && line[0] == '.' {
        out := out + ".";
      }
      out := out + line;
      out := out + CRLF;
    }
    StuffEnd(lines, out);
  }

  lemma StuffStart(lines: seq<string>)
    ensures "" + Stuffed(lines[0..]) == Stuffed(lines)
  {
    assert lines[0..] == lines;
  }

  lemma StuffStep(lines: seq<string>, i: nat, out: string)
    requires i < |lines|
    ensures var line := lines[i];
      out + Stuffed(lines[i..])
      == (if line != [] && line[0] == '.' then out + "." else out) + line + CRLF + Stuffed(lines[i + 1..])
  {
    assert lines[i..][1..] == lines[i + 1..];
  }

  lemma StuffEnd(lines: seq<string>, out: string)
    ensures out + Stuffed(lines[|lines|..]) == out
  {
  }

  // ----- what the receiving server reads -----

  /** The text up to the first CRLF, and what follows it. */
  function ReadLine(s: string): (r: Option<(string, string)>)
    ensures r.Some? ==> |r.value.1| < |s|
  {
    if |s| < 2 then None
    else if s[0] == '\r' && s[1] == '\n' then Some(([], s[2..]))
    else
      match ReadLine(s[1..])
      case None => None
      case Some((line, rest)) => Some(([s[0]] + line, rest))
  }

  /** Lines up to one that is a single dot, each without its doubled dot; and what follows that line. */
  function ReadData(s: string): Option<(seq<string>, string)>
    decreases |s|
  {
    match ReadLine(s)
    case None => None
    case Some((line, rest)) =>
      if line == "." then Some(([], rest)) else
        match ReadData(rest)
        case None => None
        case Some((lines, after)) =>
          Some(([if line != [] && line[0] == '.' then line[1..] else line] + lines, after))
  }

  /** A body's lines: each ends at a CRLF or at a line feed alone. */
  function BodyLines(s: string): (lines: seq<string>)
    ensures lines != []
  {
    if s == [] then [[]]
    else if |s| >= 2 && s[0] == '\r' && s[1] == '\n' then [[]] + BodyLines(s[2..])
    else if s[0] == '\n' then [[]] + BodyLines(s[1..])
    else
      var rest := BodyLines(s[1..]);
      [[s[0]] + rest[0]] + rest[1..]
  }

  lemma {:induction false} LinesAreBodyLines(s: string)
    ensures SplitLines(Normalised(s)) == BodyLines(s)
  {
    if s == [] {
    } else if |s| >= 2 && s[0] == '\r' && s[1] == '\n' {
      LinesAreBodyLines(s[2..]);
    } else {
      LinesAreBodyLines(s[1..]);
    }
  }

  predicate NoFeed(line: string) {
    '\n' !in line
  }

  lemma {:induction false} LinesHoldNoFeed(s: string)
    ensures forall i :: 0 <= i < |SplitLines(s)| ==> NoFeed(SplitLines(s)[i])
  {
    if s != [] {
      LinesHoldNoFeed(s[1..]);
    }
  }

  lemma {:induction false} ReadsOneLine(line: string, rest: string)
    requires NoFeed(line)
    ensures ReadLine(line + CRLF + rest) == Some((line, rest))
  {
    var s := line + CRLF + rest;
    if line == [] {
      assert s[2..] == rest;
    } else {
      assert s[1..] == line[1..] + CRLF + rest;
      ReadsOneLine(line[1..], rest);
      assert s[1] == if |line| > 1 then line[1] else '\r';
      assert [s[0]] + line[1..] == line;
    }
  }

  lemma {:induction false} StuffedReads(lines: seq<string>, rest: string)
    requires forall i :: 0 <= i < |lines| ==> NoFeed(lines[i])
    ensures ReadData(Stuffed(lines) + "." + CRLF + rest) == Some((lines, rest))
  {
    var s := Stuffed(lines) + "." + CRLF + rest;
    if lines == [] {
      assert s == "." + CRLF + rest;
      ReadsOneLine(".", rest);
    } else {
      var tail := Stuffed(lines[1..]) + "." + CRLF + rest;
      var sent := (if lines[0] != [] && lines[0][0] == '.' then "." else "") + lines[0];
      assert s == sent + CRLF + tail;
      ReadsOneLine(sent, tail);
      StuffedReads(lines[1..], rest);
      assert sent != ".";
      assert (if sent != [] && sent[0] == '.' then sent[1..] else sent) == lines[0];
      assert [lines[0]] + lines[1..] == lines;
    }
  }

  /** The server reads exactly the body's lines, and ends the message at the dot the sender ends it with. */
  lemma {:induction false} BodyArrives(body: string, rest: string)
    ensures ReadData(OnTheWire(body) + "." + CRLF + rest) == Some((BodyLines(body), rest))
  {
    LinesAreBodyLines(body);
    LinesHoldNoFeed(Normalised(body));
    StuffedReads(BodyLines(body), rest);
  }

  // ----- no end of data inside -----

  ghost predicate HoldsAt(s: string, i: int, piece: string) {
    0 <= i && i + |piece| <= |s| && s[i..i + |piece|] == piece
  }

  /** A dot that starts a stuffed line is followed by another. */
  lemma {:induction false} DotsDoubled(lines: seq<string>, i: nat)
    requires forall k :: 0 <= k < |lines| ==> NoFeed(lines[k])
    requires i + 1 < |Stuffed(lines)| && Stuffed(lines)[i] == '.' && (i == 0 || Stuffed(lines)[i - 1] == '\n')
    ensures Stuffed(lines)[i + 1] == '.'
  {
    var first := StuffedLine(lines[0]);
    if i > 0 {
      if i < |first| {
        FeedOnlyLast(lines[0], i - 1);
      } else {
        DotsDoubled(lines[1..], i - |first|);
      }
    }
  }

  lemma FeedOnlyLast(line: string, i: nat)
    requires NoFeed(line) && i < |StuffedLine(line)| && StuffedLine(line)[i] == '\n'
    ensures i == |StuffedLine(line)| - 1
  {
    var s := StuffedLine(line);
    var at := |s| - |line| - 2;
    assert forall k :: at <= k < at + |line| ==> s[k] == line[k - at];
  }

  /** The wire text neither starts with the end of data nor holds it. */
  lemma {:induction false} NeverEndsEarly(body: string, i: nat)
    ensures !HoldsAt(OnTheWire(body), 0, "." + CRLF)
    ensures !HoldsAt(OnTheWire(body), i, CRLF + "." + CRLF)
  {
    var out := OnTheWire(body);
    LinesHoldNoFeed(Normalised(body));
    hide OnTheWire;
    var lines := SplitLines(Normalised(body));
    assert out == Stuffed(lines) by { WireIs(body); }
    if HoldsAt(out, 0, "." + CRLF) {
      assert out[0] == out[0..3][0] && out[1] == out[0..3][1];
      DotsDoubled(lines, 0);
      assert false;
    }
    if HoldsAt(out, i, CRLF + "." + CRLF) {
      var piece := out[i..i + 5];
      assert out[i + 1] == piece[1] && out[i + 2] == piece[2] && out[i + 3] == piece[3];
      DotsDoubled(lines, i + 2);
      assert false;
    }
  }

  lemma WireIs(body: string)
    ensures OnTheWire(body) == Stuffed(SplitLines(Normalised(body)))
  {
  }
}
