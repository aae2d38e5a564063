/** Message ids in threading headers: parsing them and folding them (section 2.1.1 of RFC 5322). */
module MessageIds {
  import opened Prelude
  import U = Utf16
  import W = WireNumbers

  const MAX_REFERENCES: nat := 64
  const MAX_MSGID_BYTES: nat := 998 - 13
  const FOLD_AT_BYTES: nat := 78
  const CRLF: string := "\r\n"

  datatype IdError = NotText | NotIds | Unclosed | NotAnId | TooLong | NoIds | TooMany

  /** What a call gave: text, a list of values that should be text, or something else. */
  datatype Value = Text(text: Option<string>) | Many(items: seq<Option<string>>) | Other

  // ----- text -----

  /** The Unicode White_Space property. */
  predicate IsSpace(c: char) {
    var u := c as int;
    || 0x09 <= u <= 0x0D || u == 0x20 || u == 0x85 || u == 0xA0 || u == 0x1680
    || 0x2000 <= u <= 0x200A || u == 0x2028 || u == 0x2029 || u == 0x202F || u == 0x205F || u == 0x3000
  }

  predicate IsControl(c: char) {
    c as int < 0x20 || 0x7F <= c as int <= 0x9F
  }

  /** A character's length in UTF-8. */
  function CharBytes(c: char): nat {
    if c as int < 0x80 then 1 else if c as int < 0x800 then 2 else if c as int < 0x1_0000 then 3 else 4
  }

  function TextBytes(s: string): nat {
    if s == [] then 0 else CharBytes(s[0]) + TextBytes(s[1..])
  }

  lemma {:induction false} TextBytesAdd(a: string, b: string)
    ensures TextBytes(a + b) == TextBytes(a) + TextBytes(b)
  {
    if a == [] {
      assert a + b == b;
    } else {
      assert (a + b)[1..] == a[1..] + b;
      TextBytesAdd(a[1..], b);
    }
  }

  /** The characters before the first white space. */
  function Word(s: string): (w: string)
    ensures w <= s && forall i :: 0 <= i < |w| ==> !IsSpace(w[i])
  {
    if s == [] || IsSpace(s[0]) then [] else [s[0]] + Word(s[1..])
  }

  /** The words between white space. */
  function Tokens(s: string): (r: seq<string>)
    ensures forall i :: 0 <= i < |r| ==> IsToken(r[i])
  {
    if s == [] then []
    else if IsSpace(s[0]) then Tokens(s[1..])
    else
      var w := Word(s);
      [w] + Tokens(s[|w|..])
  }

  ghost predicate IsToken(t: string) {
    t != [] && forall i :: 0 <= i < |t| ==> !IsSpace(t[i])
  }

  // ----- one id -----

  predicate IsIdChar(c: char) {
    !IsControl(c) && c !in {'<', '>', '"', '(', ')', ',', ';', '\\'}
  }

  predicate AllIdChars(s: string) {
    forall i :: 0 <= i < |s| ==> IsIdChar(s[i])
  }

  /** A token as an id in brackets. */
  function MsgId(token: string): Result<string, IdError> {
    if token != [] && token[0] == '<' then
      if |token| == 1 || token[|token| - 1] != '>' then Err(Unclosed) else Bracketed(token[1..|token| - 1])
    else Bracketed(token)
  }

  function Bracketed(inner: string): Result<string, IdError> {
    if inner == [] || !AllIdChars(inner) then Err(NotAnId)
    else if TextBytes(inner) + 2 > MAX_MSGID_BYTES then Err(TooLong)
    else Ok("<" + inner + ">")
  }

  /** One id as the header carries it. */
  ghost predicate IsMsgId(id: string) {
    && |id| > 2 && id[0] == '<' && id[|id| - 1] == '>' && AllIdChars(id[1..|id| - 1])
    && IsToken(id) && TextBytes(id) <= MAX_MSGID_BYTES
  }

  // ----- several -----

  function TextsOf(value: Value): Result<seq<string>, IdError> {
    match value
    case Text(t) => if t.Some? then Ok([t.value]) else Err(NotText)
    case Many(items) =>
      if exists i :: 0 <= i < |items| && items[i].None? then Err(NotText)
      else Ok(seq(|items|, i requires 0 <= i < |items| && items[i].Some? => items[i].value))
    case Other => Err(NotIds)
  }

  function TokensOf(texts: seq<string>): (r: seq<string>)
    ensures forall i :: 0 <= i < |r| ==> IsToken(r[i])
  {
    if texts == [] then [] else Tokens(texts[0]) + TokensOf(texts[1..])
  }

  /** Each token as an id, or the first refusal. */
  function IdsOf(tokens: seq<string>): Result<seq<string>, IdError> {
    if tokens == [] then Ok([]) else
      match MsgId(tokens[0])
      case Err(e) => Err(e)
      case Ok(id) =>
        match IdsOf(tokens[1..])
        case Err(e) => Err(e)
        case Ok(ids) => Ok([id] + ids)
  }

  function MsgIdsOf(value: Value): Result<seq<string>, IdError> {
    match TextsOf(value)
    case Err(e) => Err(e)
    case Ok(texts) =>
      match IdsOf(TokensOf(texts))
      case Err(e) => Err(e)
      case Ok(ids) => if ids == [] then Err(NoIds) else if |ids| > MAX_REFERENCES then Err(TooMany) else Ok(ids)
  }

  method ReadIds(value: Value) returns (r: Result<seq<string>, IdError>)
    ensures r == MsgIdsOf(value)
  {
    hide MsgId, Tokens, TextsOf, TokensOf, IdsOf, Joined;
    var texts := TextsOf(value);
    if texts.Err? {
      return Err(texts.error);
    }
    var ids: seq<string> := [];
    var tokens := TokensOf(texts.value);
    IdsStart(tokens);
    for i := 0 to |tokens|
      invariant IdsOf(tokens) == Joined(ids, IdsOf(tokens[i..]))
    {
      var id := MsgId(tokens[i]);
      IdsStep(tokens, i, ids);
      if id.Err? {
        return Err(id.error);
      }
      ids := ids + [id.value];
    }
    IdsEnd(tokens, ids);
    if ids == [] {
      return Err(NoIds);
    }
    if |ids| > MAX_REFERENCES {
      return Err(TooMany);
    }
    return Ok(ids);
  }

  lemma IdsStart(tokens: seq<string>)
    ensures IdsOf(tokens) == Joined([], IdsOf(tokens[0..]))
  {
    assert tokens[0..] == tokens;
    if IdsOf(tokens).Ok? {
      assert [] + IdsOf(tokens).value == IdsOf(tokens).value;
    }
  }

  lemma IdsStep(tokens: seq<string>, i: nat, ids: seq<string>)
    requires i < |tokens|
    ensures Joined(ids, IdsOf(tokens[i..])) ==
      match MsgId(tokens[i])
      case Err(e) => Err(e)
      case Ok(id) => Joined(ids + [id], IdsOf(tokens[i + 1..]))
  {
    hide MsgId;
    assert tokens[i..][1..] == tokens[i + 1..];
    var later := IdsOf(tokens[i + 1..]);
    if MsgId(tokens[i]).Ok? && later.Ok? {
      assert ids + ([MsgId(tokens[i]).value] + later.value) == ids + [MsgId(tokens[i]).value] + later.value;
    }
  }

  lemma IdsEnd(tokens: seq<string>, ids: seq<string>)
    ensures Joined(ids, IdsOf(tokens[|tokens|..])) == Ok(ids)
  {
    assert ids + [] == ids;
  }

  ghost function Joined(ids: seq<string>, r: Result<seq<string>, IdError>): Result<seq<string>, IdError> {
    if r.Ok? then Ok(ids + r.value) else r
  }

  lemma BracketBytes(inner: string)
    ensures TextBytes("<" + inner + ">") == TextBytes(inner) + 2
    ensures var id := "<" + inner + ">"; id[1..|id| - 1] == inner
  {
    TextBytesAdd("<" + inner, ">");
    TextBytesAdd("<", inner);
    OneByte('<');
    OneByte('>');
    var id := "<" + inner + ">";
    assert id[1..|id| - 1] == inner;
  }

  /** What a token is read as is an id. */
  lemma {:induction false} TokenGivesId(token: string)
    requires IsToken(token) && MsgId(token).Ok?
    ensures IsMsgId(MsgId(token).value)
  {
    hide TextBytes;
    BracketBytes(if token[0] == '<' && |token| > 1 then token[1..|token| - 1] else token);
  }

  /** An id is read as itself. */
  lemma {:induction false} IdIsItself(id: string)
    requires IsMsgId(id)
    ensures MsgId(id) == Ok(id)
  {
    hide TextBytes;
    var inner := id[1..|id| - 1];
    BracketBytes(inner);
    assert id == [id[0]] + inner + [id[|id| - 1]];
  }

  lemma OneByte(c: char)
    requires c as int < 0x80
    ensures TextBytes([c]) == 1
  {
    assert [c][1..] == [];
  }

  lemma {:induction false} TokensAreIds(tokens: seq<string>)
    requires forall i :: 0 <= i < |tokens| ==> IsToken(tokens[i])
    ensures IdsOf(tokens).Ok? ==> forall i :: 0 <= i < |IdsOf(tokens).value| ==> IsMsgId(IdsOf(tokens).value[i])
    ensures (forall i :: 0 <= i < |tokens| ==> IsMsgId(tokens[i])) ==> IdsOf(tokens) == Ok(tokens)
  {
    hide IsMsgId, IsToken, MsgId;
    if tokens != [] {
      if MsgId(tokens[0]).Ok? { TokenGivesId(tokens[0]); }
      if IsMsgId(tokens[0]) { IdIsItself(tokens[0]); }
      TokensAreIds(tokens[1..]);
      assert [tokens[0]] + tokens[1..] == tokens;
    }
  }

  /** Every list a call is given back is one to 64 ids, whatever the call named. */
  lemma {:induction false} OnlyIds(value: Value)
    requires MsgIdsOf(value).Ok?
    ensures 1 <= |MsgIdsOf(value).value| <= MAX_REFERENCES
    ensures forall i :: 0 <= i < |MsgIdsOf(value).value| ==> IsMsgId(MsgIdsOf(value).value[i])
  {
    hide IsMsgId, IdsOf, TokensOf;
    TokensAreIds(TokensOf(TextsOf(value).value));
  }

  // ----- folding -----

  /** The ids after the first, where the line so far is `line` bytes. */
  function MoreIds(line: nat, ids: seq<string>): string
    decreases |ids|
  {
    if ids == [] then []
    else
      var size := 1 + TextBytes(ids[0]);
      if line + size > FOLD_AT_BYTES then CRLF + " " + ids[0] + MoreIds(size, ids[1..])
      else " " + ids[0] + MoreIds(line + size, ids[1..])
  }

  /** The header's value: what follows the field's colon, without the CRLF that ends the header. */
  function FoldedValue(field: string, ids: seq<string>): string {
    if ids == [] then [] else " " + ids[0] + MoreIds(TextBytes(field) + 2 + TextBytes(ids[0]), ids[1..])
  }

  function Folded(field: string, ids: seq<string>): string {
    field + ":" + FoldedValue(field, ids) + CRLF
  }

  method FoldIds(field: string, ids: seq<string>) returns (out: string)
    ensures out == Folded(field, ids)
  {
    hide TextBytes;
    out := field + ":";
    ColonBytes(field);
    var line := TextBytes(out);
    for i := 0 to |ids|
      invariant line >= 0 && (i == 0 ==> line == TextBytes(field) + 1)
      invariant i == 0 ==> out == field + ":"
      invariant i > 0 ==> out + MoreIds(line, ids[i..]) == field + ":" + FoldedValue(field, ids)
    {
      ghost var before := out;
      var id := ids[i];
      assert ids[i..][0] == id && ids[i..][1..] == ids[i + 1..];
      if i > 0 && line + 1 + TextBytes(id) > FOLD_AT_BYTES {
        out := out + CRLF;
        line := 0;
      }
      out := out + " ";
      out := out + id;
      line := line + 1 + TextBytes(id);
      Joins(before, CRLF, " ", id, MoreIds(line, ids[i + 1..]));
    }
    out := out + CRLF;
  }

  lemma Joins(a: string, crlf: string, space: string, id: string, rest: string)
    ensures a + (space + id + rest) == a + space + id + rest
    ensures a + (crlf + space + id + rest) == a + crlf + space + id + rest
  {
  }

  lemma ColonBytes(field: string)
    ensures TextBytes(field + ":") == TextBytes(field) + 1
  {
    TextBytesAdd(field, ":");
    OneByte(':');
  }

  // ----- reading a folded header back -----

  lemma {:induction false} WordIsToken(id: string, rest: string)
    requires IsToken(id) && (rest == [] || IsSpace(rest[0]))
    ensures Word(id + rest) == id
    decreases |id|
  {
    var s := id + rest;
    assert s[0] == id[0] && !IsSpace(id[0]);
    assert s[1..] == id[1..] + rest;
    if |id| > 1 {
      WordIsToken(id[1..], rest);
    } else {
      assert Word(rest) == [];
      assert s[1..] == rest;
    }
  }

  lemma {:induction false} TokenFirst(id: string, rest: string)
    requires IsToken(id) && (rest == [] || IsSpace(rest[0]))
    ensures Tokens(" " + id + rest) == [id] + Tokens(rest)
  {
    var s := " " + id + rest;
    assert s[1..] == id + rest;
    WordIsToken(id, rest);
    assert (id + rest)[0] == id[0] && (id + rest)[|id|..] == rest;
  }

  lemma {:induction false} TokenAfterFold(id: string, rest: string)
    requires IsToken(id) && (rest == [] || IsSpace(rest[0]))
    ensures Tokens(CRLF + " " + id + rest) == [id] + Tokens(rest)
  {
    var s := CRLF + " " + id + rest;
    assert s[1..] == "\n" + (" " + id + rest);
    assert s[1..][1..] == " " + id + rest;
    TokenFirst(id, rest);
  }

  lemma {:induction false} MoreTokens(line: nat, ids: seq<string>)
    requires forall i :: 0 <= i < |ids| ==> IsToken(ids[i])
    ensures Tokens(MoreIds(line, ids)) == ids
    ensures MoreIds(line, ids) == [] || IsSpace(MoreIds(line, ids)[0])
    decreases |ids|
  {
    hide Tokens, IsToken, TextBytes;
    if ids == [] {
      assert Tokens([]) == [] by { NoTokens(); }
    } else {
      var size := 1 + TextBytes(ids[0]);
      var next := if line + size > FOLD_AT_BYTES then size else line + size;
      MoreTokens(next, ids[1..]);
      TokenFirst(ids[0], MoreIds(next, ids[1..]));
      TokenAfterFold(ids[0], MoreIds(next, ids[1..]));
      assert [ids[0]] + ids[1..] == ids;
    }
  }

  lemma NoTokens()
    ensures Tokens([]) == []
  {
  }

  /** Reading a folded header's value gives back the ids folded into it. */
  lemma {:induction false} FoldReadsBack(field: string, ids: seq<string>)
    requires 1 <= |ids| <= MAX_REFERENCES && forall i :: 0 <= i < |ids| ==> IsMsgId(ids[i])
    ensures MsgIdsOf(Text(Some(FoldedValue(field, ids)))) == Ok(ids)
  {
    AllTokens(ids);
    hide Tokens, IsToken, IsMsgId, TextBytes, MoreIds, IdsOf, TokensOf;
    var line := TextBytes(field) + 2 + TextBytes(ids[0]);
    MoreTokens(line, ids[1..]);
    TokenFirst(ids[0], MoreIds(line, ids[1..]));
    assert [ids[0]] + ids[1..] == ids;
    var s := FoldedValue(field, ids);
    assert Tokens(s) == ids;
    assert TokensOf([s]) == ids by { OneText(s); }
    TokensAreIds(ids);
  }

  lemma AllTokens(ids: seq<string>)
    requires forall i :: 0 <= i < |ids| ==> IsMsgId(ids[i])
    ensures forall i :: 0 <= i < |ids| ==> IsToken(ids[i])
  {
  }

  lemma OneText(s: string)
    ensures TokensOf([s]) == Tokens(s)
  {
    assert [s][1..] == [];
    assert Tokens(s) + [] == Tokens(s);
  }

  // ----- line lengths -----

  /** The lines of a text, each ended by CRLF; what follows the last CRLF is the last. */
  function Lines(s: string): (lines: seq<string>)
    ensures lines != []
  {
    if s == [] then [[]]
    else if |s| >= 2 && s[0] == '\r' && s[1] == '\n' then [[]] + Lines(s[2..])
    else
      var rest := Lines(s[1..]);
      [[s[0]] + rest[0]] + rest[1..]
  }

  /** How many ids start on a line. */
  function IdsOn(line: string): nat {
    if line == [] then 0 else (if line[0] == '<' then 1 else 0) + IdsOn(line[1..])
  }

  ghost predicate LineFits(line: string) {
    TextBytes(line) <= 998 && (IdsOn(line) >= 2 ==> TextBytes(line) <= FOLD_AT_BYTES)
  }

  ghost predicate NoEnding(s: string) {
    forall i :: 0 <= i < |s| ==> s[i] != '\r' && s[i] != '\n'
  }

  lemma {:induction false} LinesSplit(line: string, rest: string)
    requires NoEnding(line)
    ensures Lines(line + CRLF + rest) == [line] + Lines(rest)
  {
    var s := line + CRLF + rest;
    if line == [] {
      assert s[2..] == rest;
    } else {
      assert s[1..] == line[1..] + CRLF + rest;
      LinesSplit(line[1..], rest);
      assert [s[0]] + line[1..] == line;
    }
  }

  lemma {:induction false} IdsOnAdd(a: string, b: string)
    ensures IdsOn(a + b) == IdsOn(a) + IdsOn(b)
  {
    if a == [] {
      assert a + b == b;
    } else {
      assert (a + b)[1..] == a[1..] + b;
      IdsOnAdd(a[1..], b);
    }
  }

  lemma {:induction false} NoneOn(s: string)
    requires AllIdChars(s)
    ensures IdsOn(s) == 0 && NoEnding(s)
  {
    if s != [] {
      NoneOn(s[1..]);
    }
  }

  /** One id is one id. */
  lemma {:induction false} OneIdOn(id: string)
    requires IsMsgId(id)
    ensures IdsOn(" " + id) == 1 && NoEnding(" " + id) && TextBytes(" " + id) == 1 + TextBytes(id)
  {
    var inner := id[1..|id| - 1];
    NoneOn(inner);
    assert id == "<" + inner + ">";
    IdsOnAdd(" <", inner + ">");
    IdsOnAdd(inner, ">");
    assert " " + id == " <" + (inner + ">");
    assert IdsOn(" <") == 1 && IdsOn(">") == 0 by { Brackets(); }
    TextBytesAdd(" ", id);
    OneByte(' ');
  }

  lemma Brackets()
    ensures IdsOn(" <") == 1 && IdsOn(">") == 0
  {
    assert " <"[1..] == "<" && "<"[1..] == "" && ">"[1..] == "";
  }

  ghost predicate AllFit(lines: seq<string>) {
    forall i :: 0 <= i < |lines| ==> LineFits(lines[i])
  }

  lemma {:induction false} MoreFits(start: string, ids: seq<string>)
    requires NoEnding(start) && LineFits(start)
    requires forall i :: 0 <= i < |ids| ==> IsMsgId(ids[i])
    ensures AllFit(Lines(start + MoreIds(TextBytes(start), ids) + CRLF))
    decreases |ids|
  {
    hide IsMsgId, TextBytes, Lines, IdsOn;
    if ids == [] {
      LinesSplit(start, "");
      assert start + [] + CRLF == start + CRLF + "";
      EmptyLine();
    } else {
      OneIdOn(ids[0]);
      var next := " " + ids[0];
      IdsOnAdd(start, next);
      TextBytesAdd(start, next);
      IdFits(ids[0]);
      if TextBytes(start) + TextBytes(next) > FOLD_AT_BYTES {
        var rest := next + MoreIds(TextBytes(next), ids[1..]) + CRLF;
        LinesSplit(start, rest);
        assert start + (CRLF + " " + ids[0] + MoreIds(TextBytes(next), ids[1..])) + CRLF == start + CRLF + rest;
        MoreFits(next, ids[1..]);
      } else {
        MoreFits(start + next, ids[1..]);
        assert start + (" " + ids[0] + MoreIds(TextBytes(start + next), ids[1..])) + CRLF
            == (start + next) + MoreIds(TextBytes(start + next), ids[1..]) + CRLF;
      }
    }
  }

  lemma IdFits(id: string)
    requires IsMsgId(id)
    ensures TextBytes(id) <= MAX_MSGID_BYTES
  {
  }

  lemma EmptyLine()
    ensures Lines("") == [""] && LineFits("")
  {
  }

  /** Every line of a folded header is at most 998 bytes, and one of several ids at most 78. */
  lemma {:induction false} FoldedLinesFit(field: string, ids: seq<string>)
    requires ids != [] && forall i :: 0 <= i < |ids| ==> IsMsgId(ids[i])
    requires NoEnding(field) && IdsOn(field) == 0 && TextBytes(field) <= 11
    ensures AllFit(Lines(Folded(field, ids)))
  {
    hide IsMsgId, TextBytes, Lines, IdsOn, MoreIds;
    OneIdOn(ids[0]);
    var start := field + ":" + " " + ids[0];
    ColonBytes(field);
    IdsOnAdd(field, ":");
    Colon();
    IdsOnAdd(field + ":", " " + ids[0]);
    TextBytesAdd(field + ":", " " + ids[0]);
    assert start == field + ":" + (" " + ids[0]);
    IdFits(ids[0]);
    MoreFits(start, ids[1..]);
    assert Folded(field, ids) == start + MoreIds(TextBytes(start), ids[1..]) + CRLF;
  }

  lemma Colon()
    ensures IdsOn(":") == 0
  {
    assert ":"[1..] == "";
  }

  /** The headers the connector writes have short names. */
  lemma HeaderFields(field: string)
    requires field == "In-Reply-To" || field == "References"
    ensures NoEnding(field) && IdsOn(field) == 0 && TextBytes(field) <= 11
  {
    hide TextBytes, IdsOn;
    NoneOn(field);
    Ascii(field);
  }

  lemma {:induction false} Ascii(s: string)
    requires forall i :: 0 <= i < |s| ==> s[i] as int < 0x80
    ensures TextBytes(s) == |s|
  {
    if s != [] {
      Ascii(s[1..]);
    }
  }

  // ----- which tokens, and which of them are ids -----

  /** White space and nothing else. */
  ghost predicate AllSpace(s: string) {
    forall i :: 0 <= i < |s| ==> W.IsWhite(s[i] as int)
  }

  ghost predicate NoSpace(s: string) {
    s != [] && forall i :: 0 <= i < |s| ==> !W.IsWhite(s[i] as int)
  }

  /** Words with white space between them, and perhaps around them. */
  function Spaced(words: seq<string>, gaps: seq<string>): string
    requires |gaps| == |words| + 1
  {
    if words == [] then gaps[0] else gaps[0] + words[0] + Spaced(words[1..], gaps[1..])
  }

  lemma {:induction false} SpaceSkipped(gap: string, rest: string)
    requires AllSpace(gap)
    ensures Tokens(gap + rest) == Tokens(rest)
  {
    if gap == [] {
      assert gap + rest == rest;
    } else {
      assert (gap + rest)[1..] == gap[1..] + rest;
      SpaceSkipped(gap[1..], rest);
    }
  }

  /** The tokens of words spaced apart are those words. */
  lemma {:induction false} TokensAre(words: seq<string>, gaps: seq<string>)
    requires |gaps| == |words| + 1 && (forall i :: 0 <= i < |words| ==> NoSpace(words[i]))
    requires (forall i :: 0 <= i < |gaps| ==> AllSpace(gaps[i])) && forall i :: 0 < i < |words| ==> gaps[i] != []
    ensures Tokens(Spaced(words, gaps)) == words
    decreases |words|
  {
    if words == [] {
      SpaceSkipped(gaps[0], []);
      assert gaps[0] + [] == gaps[0];
    } else {
      var rest := Spaced(words[1..], gaps[1..]);
      TokensAre(words[1..], gaps[1..]);
      assert rest == [] || IsSpace(rest[0]) by { GapFirst(words, gaps); }
      assert Spaced(words, gaps) == gaps[0] + (words[0] + rest);
      SpaceSkipped(gaps[0], words[0] + rest);
      assert IsToken(words[0]);
      WordIsToken(words[0], rest);
      assert (words[0] + rest)[0] == words[0][0] && (words[0] + rest)[|words[0]|..] == rest;
      assert [words[0]] + words[1..] == words;
    }
  }

  lemma GapFirst(words: seq<string>, gaps: seq<string>)
    requires words != [] && |gaps| == |words| + 1
    requires (forall i :: 0 <= i < |gaps| ==> AllSpace(gaps[i])) && forall i :: 0 < i < |words| ==> gaps[i] != []
    ensures var rest := Spaced(words[1..], gaps[1..]);
      rest == [] || IsSpace(rest[0])
  {
    assert gaps[1..][0] == gaps[1] && AllSpace(gaps[1]);
    if |words| > 1 {
      assert gaps[1] != [];
    }
  }

  /** A text no reader of headers would take for one id's insides. */
  predicate Unfit(inner: string) {
    inner == [] || exists i :: 0 <= i < |inner| && UnfitChar(inner[i])
  }

  predicate UnfitChar(c: char) {
    c as int < 0x20 || 0x7F <= c as int <= 0x9F || c in "<>\"(),;\\"
  }

  /** What a token has inside its brackets, if it has them. */
  function Inside(token: string): string {
    if |token| >= 2 && token[0] == '<' && token[|token| - 1] == '>' then token[1..|token| - 1] else token
  }

  /**
   A token is an id when its inside, with brackets supplied if it had none, is fit and
   no longer than the bound; one that opens and does not close is refused as that,
   then an unfit one, then one too long.
   */
  lemma {:induction false} TokenExactly(token: string)
    requires token != []
    ensures var r, inner := MsgId(token), Inside(token);
      var open := token[0] == '<' && inner == token;
      && (r == Err(Unclosed) <==> open)
      && (r == Err(NotAnId) <==> !open && Unfit(inner))
      && (r == Err(TooLong) <==> !open && !Unfit(inner) && TextBytes(inner) + 2 > 985)
      && (r.Ok? <==> !open && !Unfit(inner) && TextBytes(inner) + 2 <= 985)
      && (r.Ok? ==> r.value == "<" + inner + ">")
  {
    hide TextBytes;
    var inner := Inside(token);
    forall i | 0 <= i < |inner|
      ensures IsIdChar(inner[i]) <==> !UnfitChar(inner[i])
    {
    }
    assert AllIdChars(inner) <==> forall i :: 0 <= i < |inner| ==> !UnfitChar(inner[i]);
    assert |token| >= 2 && inner == token[1..|token| - 1] ==> |inner| != |token|;
    hide IsIdChar, UnfitChar;
  }

  /** Tokens are taken in order; the first that is no id is the refusal. */
  lemma {:induction false} IdsExactly(tokens: seq<string>)
    ensures var r := IdsOf(tokens);
      && (r.Ok? <==> forall i :: 0 <= i < |tokens| ==> MsgId(tokens[i]).Ok?)
      && (r.Ok? ==> |r.value| == |tokens| && forall i :: 0 <= i < |tokens| ==> MsgId(tokens[i]) == Ok(r.value[i]))
      && (r.Err? ==> exists i :: 0 <= i < |tokens| && MsgId(tokens[i]) == Err(r.error) && forall k :: 0 <= k < i ==> MsgId(tokens[k]).Ok?)
  {
    hide MsgId;
    if tokens != [] {
      var rest := tokens[1..];
      IdsExactly(rest);
      if MsgId(tokens[0]).Ok? && IdsOf(rest).Err? {
        var i :| 0 <= i < |rest| && MsgId(rest[i]) == Err(IdsOf(rest).error) && forall k :: 0 <= k < i ==> MsgId(rest[k]).Ok?;
        assert tokens[i + 1] == rest[i];
        assert forall k :: 0 < k < i + 1 ==> tokens[k] == rest[k - 1];
      }
    }
  }

  // ----- folding no earlier than it must -----

  /** A line after the first starts with an id that would have made the line before it too long. */
  ghost predicate FoldedLate(before: string, line: string) {
    exists id: string :: id != [] && |line| > |id| && line[0] == ' ' && line[1..|id| + 1] == id
      && (|line| == |id| + 1 || line[|id| + 1] == ' ') && TextBytes(before) + 1 + TextBytes(id) > 78
  }

  ghost predicate AllLate(lines: seq<string>) {
    forall i :: 0 <= i < |lines| - 2 ==> FoldedLate(lines[i], lines[i + 1])
  }

  /** Lines that go on from `start` start with it. */
  lemma {:induction false} MoreLate(start: string, ids: seq<string>)
    requires NoEnding(start) && forall i :: 0 <= i < |ids| ==> IsMsgId(ids[i])
    ensures var lines := Lines(start + MoreIds(TextBytes(start), ids) + CRLF);
      && |lines| >= 2 && AllLate(lines) && start <= lines[0] && (|lines[0]| > |start| ==> lines[0][|start|] == ' ')
    decreases |ids|
  {
    hide IsMsgId, TextBytes, Lines, FoldedLate;
    if ids == [] {
      LinesSplit(start, "");
      assert start + [] + CRLF == start + CRLF + "";
      EmptyLine();
    } else {
      OneIdOn(ids[0]);
      var next := " " + ids[0];
      TextBytesAdd(start, next);
      if TextBytes(start) + TextBytes(next) > FOLD_AT_BYTES {
        var rest := next + MoreIds(TextBytes(next), ids[1..]) + CRLF;
        LinesSplit(start, rest);
        assert start + (CRLF + " " + ids[0] + MoreIds(TextBytes(next), ids[1..])) + CRLF == start + CRLF + rest;
        MoreLate(next, ids[1..]);
        LateHere(start, ids[0], Lines(rest)[0]);
        assert [start] + Lines(rest) == Lines(start + CRLF + rest);
        PrependLate(start, Lines(rest));
      } else {
        MoreLate(start + next, ids[1..]);
        assert start + (" " + ids[0] + MoreIds(TextBytes(start + next), ids[1..])) + CRLF
            == (start + next) + MoreIds(TextBytes(start + next), ids[1..]) + CRLF;
        var first := Lines((start + next) + MoreIds(TextBytes(start + next), ids[1..]) + CRLF)[0];
        assert first[|start|] == (start + next)[|start|];
      }
    }
  }

  lemma LateHere(before: string, id: string, line: string)
    requires IsMsgId(id) && " " + id <= line && (|line| > |id| + 1 ==> line[|id| + 1] == ' ')
    requires TextBytes(before) + 1 + TextBytes(id) > 78
    ensures FoldedLate(before, line)
  {
    assert line[..|id| + 1] == " " + id;
    assert line[1..|id| + 1] == id;
    assert id != [] && |line| > |id|;
  }

  lemma PrependLate(first: string, rest: seq<string>)
    requires |rest| >= 2 && AllLate(rest) && FoldedLate(first, rest[0])
    ensures AllLate([first] + rest)
  {
    hide FoldedLate;
    var lines := [first] + rest;
    forall i | 0 <= i < |lines| - 2
      ensures FoldedLate(lines[i], lines[i + 1])
    {
      if i > 0 {
        assert lines[i] == rest[i - 1] && lines[i + 1] == rest[i];
      }
    }
  }

  /** A header is folded only where the next id would have passed 78 bytes. */
  lemma {:induction false} FoldsLate(field: string, ids: seq<string>)
    requires ids != [] && (forall i :: 0 <= i < |ids| ==> IsMsgId(ids[i])) && NoEnding(field)
    ensures AllLate(Lines(Folded(field, ids)))
  {
    hide IsMsgId, TextBytes, Lines, IdsOn, MoreIds, AllLate;
    OneIdOn(ids[0]);
    var start := field + ":" + " " + ids[0];
    ColonBytes(field);
    TextBytesAdd(field + ":", " " + ids[0]);
    assert start == field + ":" + (" " + ids[0]);
    MoreLate(start, ids[1..]);
    assert Folded(field, ids) == start + MoreIds(TextBytes(start), ids[1..]) + CRLF;
  }

  /** Lengths are those of UTF-8. */
  lemma CharBytesAre(c: char)
    ensures U.IsScalar(c as int) && CharBytes(c) == |U.Utf8(c as int)|
  {
  }
}
