/** What the header fields that frame a body say, in their own letters and digits. */
module HttpHeaders {
  import opened Prelude
  import opened Dechunker
  import opened WireNumbers
  import opened HttpReader

  // ----- names -----

  /** These bytes spell the word, in capitals or not. */
  predicate Spells(s: Bytes, word: string) {
    |s| == |word|
    && forall i :: 0 <= i < |s| ==> s[i] == word[i] as int || ('a' <= word[i] <= 'z' && s[i] == word[i] as int - 32)
  }

  predicate LowerWord(word: string) {
    forall i :: 0 <= i < |word| ==> 0 <= word[i] as int < 128 && !('A' <= word[i] <= 'Z')
  }

  lemma {:induction false} LowerSpells(s: Bytes, lower: Bytes, word: string)
    requires |lower| == |word| && LowerWord(word) && forall i :: 0 <= i < |word| ==> lower[i] == word[i] as int
    ensures Lower(s) == lower <==> Spells(s, word)
  {
    if Lower(s) == lower {
      forall i | 0 <= i < |s|
        ensures s[i] == word[i] as int || ('a' <= word[i] <= 'z' && s[i] == word[i] as int - 32)
      {
        assert Lower(s)[i] == lower[i];
      }
    }
    if Spells(s, word) {
      assert forall i :: 0 <= i < |s| ==> Lower(s)[i] == lower[i];
    }
  }

  lemma TransferEncodingIs()
    ensures var w := "transfer-encoding"; |TRANSFER_ENCODING| == |w| && LowerWord(w) && forall i :: 0 <= i < |w| ==> TRANSFER_ENCODING[i] == w[i] as int
  {
  }

  lemma ContentLengthIs()
    ensures var w := "content-length"; |CONTENT_LENGTH| == |w| && LowerWord(w) && forall i :: 0 <= i < |w| ==> CONTENT_LENGTH[i] == w[i] as int
  {
  }

  lemma ChunkedIs()
    ensures var w := "chunked"; |CHUNKED_WORD| == |w| && LowerWord(w) && forall i :: 0 <= i < |w| ==> CHUNKED_WORD[i] == w[i] as int
  {
  }

  predicate WordAt(s: Bytes, word: Bytes, i: int) {
    0 <= i <= |s| - |word| && s[i..i + |word|] == word
  }

  lemma {:induction false} ContainsAt(s: Bytes, word: Bytes)
    requires word != []
    ensures Contains(s, word) <==> exists i :: WordAt(s, word, i)
  {
    if word <= s {
      assert WordAt(s, word, 0);
    } else if s != [] {
      ContainsAt(s[1..], word);
      assert !WordAt(s, word, 0);
      assert forall i :: WordAt(s[1..], word, i) ==> WordAt(s, word, i + 1);
      assert forall i :: WordAt(s, word, i) ==> WordAt(s[1..], word, i - 1);
    }
  }

  /** Somewhere the value says "chunked". */
  ghost predicate NamesChunked(f: Field) {
    Spells(f.name, "transfer-encoding") && exists i :: ChunkedFrom(f.value, i)
  }

  predicate ChunkedFrom(value: Bytes, i: int) {
    0 <= i <= |value| - 7 && Spells(value[i..i + 7], "chunked")
  }

  ghost predicate NamesLength(f: Field) {
    Spells(f.name, "content-length")
  }

  /** The two fields that frame a body are known by their names, in capitals or not, and the coding by its word. */
  lemma {:induction false} FieldsExactly(f: Field)
    ensures SaysChunked(f) <==> NamesChunked(f)
    ensures SaysLength(f) <==> NamesLength(f)
  {
    TransferEncodingIs();
    ContentLengthIs();
    LowerSpells(f.name, TRANSFER_ENCODING, "transfer-encoding");
    LowerSpells(f.name, CONTENT_LENGTH, "content-length");
    ContainsAt(Lower(f.value), CHUNKED_WORD);
    forall i
      ensures WordAt(Lower(f.value), CHUNKED_WORD, i) <==> ChunkedFrom(f.value, i)
    {
      ChunkedHere(f.value, i);
    }
    hide Lower, Contains, Spells, WordAt, ChunkedFrom;
  }

  lemma ChunkedHere(value: Bytes, i: int)
    ensures WordAt(Lower(value), CHUNKED_WORD, i) <==> ChunkedFrom(value, i)
  {
    ChunkedIs();
    if 0 <= i <= |value| - 7 {
      LowerSpells(value[i..i + 7], CHUNKED_WORD, "chunked");
      assert Lower(value)[i..i + 7] == Lower(value[i..i + 7]);
    }
  }

  // ----- lengths -----

  /** A number as it is printed. */
  function Printed(n: nat): (s: Bytes)
    ensures s != []
  {
    (if n < 10 then [] else Printed(n / 10)) + [48 + n % 10]
  }

  /** Leading zeros, then the number as it is printed. */
  ghost predicate NamesDecimal(s: Bytes, n: nat) {
    exists k: nat :: s == Zeros(k) + Printed(n)
  }

  lemma {:induction false} PrintedStep(n: nat, d: nat)
    requires d < 10
    ensures Printed(10 * n + d) == (if n == 0 then [] else Printed(n)) + [48 + d]
  {
    assert (10 * n + d) / 10 == n && (10 * n + d) % 10 == d;
  }

  lemma {:induction false} DecimalNames(s: Bytes, n: nat)
    requires s != [] && DecimalValue(s) == Some(n)
    ensures NamesDecimal(s, n)
  {
    hide Printed, NamesDecimal;
    var front := s[..|s| - 1];
    var d := s[|s| - 1] - 48;
    var v := DecimalValue(front).value;
    assert n == 10 * v + d && s == front + [48 + d];
    if front == [] {
      DigitNamed(d);
    } else {
      DecimalNames(front, v);
      DigitAdded(front, v, d);
    }
  }

  lemma DigitNamed(d: nat)
    requires d < 10
    ensures NamesDecimal([48 + d], d) && Printed(d) == [48 + d]
  {
    PrintedStep(0, d);
    hide Printed;
    assert [48 + d] == Zeros(0) + Printed(d);
  }

  /** One digit more after a number that is named. */
  lemma DigitAdded(s: Bytes, v: nat, d: nat)
    requires NamesDecimal(s, v) && d < 10
    ensures NamesDecimal(s + [48 + d], 10 * v + d)
  {
    PrintedStep(v, d);
    DigitNamed(0);
    hide Printed;
    var k: nat :| s == Zeros(k) + Printed(v);
    if v == 0 {
      ZerosMore(k);
      assert s + [48 + d] == Zeros(k + 1) + Printed(10 * v + d);
    } else {
      assert s + [48 + d] == Zeros(k) + Printed(10 * v + d);
    }
  }

  lemma {:induction false} NamedDecimal(s: Bytes, n: nat)
    requires NamesDecimal(s, n)
    ensures s != [] && DecimalValue(s) == Some(n)
    decreases |s|
  {
    var k: nat :| s == Zeros(k) + Printed(n);
    var v, d := n / 10, n % 10;
    assert n == 10 * v + d && d < 10;
    PrintedStep(v, d);
    DigitNamed(0);
    hide Printed;
    var front := s[..|s| - 1];
    var before := if v == 0 then Zeros(k) else Zeros(k) + Printed(v);
    assert s == before + [48 + d];
    assert front == before;
    if v > 0 {
      NamedDecimal(front, v);
    } else if k > 0 {
      ZerosMore(k - 1);
      assert front == Zeros(k - 1) + Printed(0);
      NamedDecimal(front, 0);
    }
  }

  ghost predicate SignedDecimal(t: Bytes, n: nat) {
    NamesDecimal(t, n) || (t != [] && t[0] == 43 && NamesDecimal(t[1..], n))
  }

  lemma {:induction false} DecimalDigits(s: Bytes)
    requires DecimalValue(s).Some?
    ensures forall i :: 0 <= i < |s| ==> 48 <= s[i] <= 57
  {
    if s != [] {
      DecimalDigits(s[..|s| - 1]);
    }
  }

  lemma DecimalTight(t: Bytes, n: nat)
    requires SignedDecimal(t, n)
    ensures Tight(t) && (t[0] == 43 <==> !NamesDecimal(t, n)) && (t[0] == 43 ==> t[1..] != [])
  {
    var digits := if NamesDecimal(t, n) then t else t[1..];
    NamedDecimal(digits, n);
    DecimalDigits(digits);
    assert t[|t| - 1] == digits[|digits| - 1];
  }

  /**
   A content-length names `n` exactly when its value is, but for white space around it,
   an optional plus, leading zeros and `n` in decimal, and `n` fits a machine word.
   */
  lemma {:induction false} LengthExactly(value: Bytes, n: nat)
    ensures LengthIn(value) == Some(n) <==> n < USIZE_END && exists t :: SignedDecimal(t, n) && Trimmed(value, t)
  {
    var text := TrimEnd(TrimStart(value));
    hide TrimEnd, TrimStart, DecimalValue, Trimmed, NamesDecimal;
    if LengthIn(value) == Some(n) {
      var digits := if text != [] && text[0] == 43 then text[1..] else text;
      DecimalNames(digits, n);
      assert SignedDecimal(text, n);
      DecimalTight(text, n);
      TrimIs(value, text);
    }
    if n < USIZE_END && exists t :: SignedDecimal(t, n) && Trimmed(value, t) {
      var t :| SignedDecimal(t, n) && Trimmed(value, t);
      DecimalTight(t, n);
      TrimIs(value, t);
      NamedDecimal(if NamesDecimal(t, n) then t else t[1..], n);
    }
  }

  // ----- framing -----

  /** This field says that the body is `n` bytes long. */
  ghost predicate StatesLength(f: Field, n: nat) {
    NamesLength(f) && n < USIZE_END && exists t :: SignedDecimal(t, n) && Trimmed(f.value, t)
  }

  ghost predicate SomeChunked(fields: seq<Field>) {
    exists i :: 0 <= i < |fields| && NamesChunked(fields[i])
  }

  ghost predicate SomeLength(fields: seq<Field>) {
    exists i :: 0 <= i < |fields| && NamesLength(fields[i])
  }

  /** Every content-length says `n`. */
  ghost predicate AllState(fields: seq<Field>, n: nat) {
    forall i :: 0 <= i < |fields| && NamesLength(fields[i]) ==> StatesLength(fields[i], n)
  }

  /** The fields' lengths, one for each field that states one. */
  lemma {:induction false} LengthsAre(fields: seq<Field>)
    ensures forall n: Option<nat> :: n in LengthsIn(fields) <==> exists i :: 0 <= i < |fields| && SaysLength(fields[i]) && LengthIn(fields[i].value) == n
  {
    if fields != [] {
      var front, f := fields[..|fields| - 1], fields[|fields| - 1];
      LengthsAre(front);
      assert fields == front + [f];
      hide LengthIn, SaysLength;
      forall n: Option<nat>
        ensures n in LengthsIn(fields) <==> exists i :: 0 <= i < |fields| && SaysLength(fields[i]) && LengthIn(fields[i].value) == n
      {
        if i :| 0 <= i < |fields| && SaysLength(fields[i]) && LengthIn(fields[i].value) == n {
          assert i < |front| ==> front[i] == fields[i];
        }
        if n in LengthsIn(front) {
          var i :| 0 <= i < |front| && SaysLength(front[i]) && LengthIn(front[i].value) == n;
          assert fields[i] == front[i];
        }
      }
    }
  }

  lemma {:induction false} LengthStated(f: Field, n: nat)
    ensures SaysLength(f) && LengthIn(f.value) == Some(n) <==> StatesLength(f, n)
  {
    FieldsExactly(f);
    LengthExactly(f.value, n);
    hide SaysLength, LengthIn, NamesLength, Trimmed, SignedDecimal;
  }

  /**
   How a head's fields frame its body, in the fields' own words: refused exactly when
   the content-lengths do not all name one number; nothing after 1xx, 204 and 304;
   else chunked if a transfer coding says so, the length if one is stated, or the close.
   */
  lemma {:induction false} FramedExactly(status: nat, fields: seq<Field>)
    ensures var r := Framing(status, fields);
      && (r.Ok? <==> !SomeLength(fields) || exists n :: AllState(fields, n))
      && (r.Ok? ==>
           if 100 <= status <= 199 || status == 204 || status == 304 then r.value == Length(0)
           else if SomeChunked(fields) then r.value == Chunked
           else if SomeLength(fields) then r.value.Length? && AllState(fields, r.value.n)
           else r.value == Close)
  {
    FramingExactly(status, fields);
    forall i | 0 <= i < |fields|
      ensures SaysChunked(fields[i]) <==> NamesChunked(fields[i])
    {
      FieldsExactly(fields[i]);
    }
    hide Framing, SaysChunked, LengthsIn, NamesChunked;
    AgreeAre(fields);
    hide SomeLength, AllState, LengthsAgree;
  }

  lemma {:induction false} LengthAt(fields: seq<Field>, i: nat)
    requires i < |fields| && NamesLength(fields[i])
    ensures LengthIn(fields[i].value) in LengthsIn(fields)
    ensures forall n: nat :: LengthIn(fields[i].value) == Some(n) <==> StatesLength(fields[i], n)
  {
    LengthsAre(fields);
    FieldsExactly(fields[i]);
    forall n: nat
      ensures LengthIn(fields[i].value) == Some(n) <==> StatesLength(fields[i], n)
    {
      LengthStated(fields[i], n);
    }
  }

  lemma {:induction false} LengthOf(fields: seq<Field>, n: Option<nat>) returns (i: nat)
    requires n in LengthsIn(fields)
    ensures i < |fields| && NamesLength(fields[i]) && LengthIn(fields[i].value) == n
  {
    LengthsAre(fields);
    i :| 0 <= i < |fields| && SaysLength(fields[i]) && LengthIn(fields[i].value) == n;
    FieldsExactly(fields[i]);
  }

  lemma {:induction false} AgreeAre(fields: seq<Field>)
    ensures LengthsIn(fields) == [] <==> !SomeLength(fields)
    ensures LengthsAgree(LengthsIn(fields)) <==> !SomeLength(fields) || exists n :: AllState(fields, n)
    ensures forall n: nat ::
      LengthsIn(fields) != [] && (forall i :: 0 <= i < |LengthsIn(fields)| ==> LengthsIn(fields)[i] == Some(n)) ==> AllState(fields, n)
  {
    hide LengthsIn, LengthIn, NamesLength, StatesLength;
    var ls := LengthsIn(fields);
    if i :| 0 <= i < |fields| && NamesLength(fields[i]) {
      LengthAt(fields, i);
    }
    if ls != [] {
      var i := LengthOf(fields, ls[0]);
    }
    forall n: nat | ls != [] && forall i :: 0 <= i < |ls| ==> ls[i] == Some(n)
      ensures AllState(fields, n)
    {
      EveryStates(fields, n);
    }
    if ls != [] && LengthsAgree(ls) {
      EveryStates(fields, ls[0].value);
    }
    if n: nat :| SomeLength(fields) && AllState(fields, n) {
      forall i | 0 <= i < |ls|
        ensures ls[i] == Some(n)
      {
        assert ls[i] in ls;
        var j := LengthOf(fields, ls[i]);
        LengthAt(fields, j);
      }
    }
  }

  lemma {:induction false} EveryStates(fields: seq<Field>, n: nat)
    requires forall i :: 0 <= i < |LengthsIn(fields)| ==> LengthsIn(fields)[i] == Some(n)
    ensures AllState(fields, n)
  {
    hide LengthsIn, LengthIn, NamesLength, StatesLength;
    forall i | 0 <= i < |fields| && NamesLength(fields[i])
      ensures StatesLength(fields[i], n)
    {
      LengthAt(fields, i);
    }
  }

  // ----- whole answers -----

  /** `head` is read as a final head of these fields, all of it. */
  ghost predicate IsHead(parse: Parser, head: Bytes, status: nat, fields: seq<Field>) {
    parse(head) == Ok(Some(RawHead(status, fields, |head|)))
    && !(100 <= status <= 199) && status != 204 && status != 304
  }

  lemma PrintedNames(n: nat)
    requires n < USIZE_END
    ensures SignedDecimal(Printed(n), n) && Trimmed(Printed(n), Printed(n))
  {
    assert Printed(n) == Zeros(0) + Printed(n);
    NoWhite();
    assert Blank([]) by { assert AllWhite([]) && [] == White([]); }
    assert Printed(n) == [] + Printed(n) + [];
  }

  /**
   A head that states the printed length of a body, then the body, is answered with
   exactly that body, however it ends and whatever follows.
   */
  lemma {:induction false} LengthAnswer(parse: Parser, head: Bytes, status: nat, fields: seq<Field>, body: Bytes, after: Bytes, end: Ending)
    requires Stable(parse) && IsHead(parse, head, status, fields) && |body| <= MAX_BODY
    requires !SomeChunked(fields) && SomeLength(fields)
    requires forall i :: 0 <= i < |fields| && NamesLength(fields[i]) ==> fields[i].value == Printed(|body|)
    ensures Answer(parse, head + (body + after), end) == Ok(Response(status, fields, body))
  {
    hide Framing, Printed, NamesLength, SomeChunked, SomeLength;
    LengthFramed(status, fields, |body|);
    HeadThenMore(parse, head, status, fields, Length(|body|), body + after);
    assert (body + after)[..|body|] == body;
  }

  lemma LengthFramed(status: nat, fields: seq<Field>, n: nat)
    requires !(100 <= status <= 199) && status != 204 && status != 304 && n < USIZE_END
    requires !SomeChunked(fields) && SomeLength(fields)
    requires forall i :: 0 <= i < |fields| && NamesLength(fields[i]) ==> fields[i].value == Printed(n)
    ensures Framing(status, fields) == Ok(Length(n))
  {
    hide Framing, Printed, SignedDecimal, Trimmed, NamesLength, SomeChunked, SomeLength;
    PrintedNames(n);
    assert AllState(fields, n);
    FramedExactly(status, fields);
    SameLength(fields, n, Framing(status, fields).value.n);
  }

  /** A body cut short is an error that says how much came, how much was stated, and whether the peer said it was closing. */
  lemma {:induction false} ShortAnswer(parse: Parser, head: Bytes, status: nat, fields: seq<Field>, n: nat, part: Bytes, end: Ending)
    requires Stable(parse) && IsHead(parse, head, status, fields) && |part| < n <= MAX_BODY
    requires !SomeChunked(fields) && SomeLength(fields)
    requires forall i :: 0 <= i < |fields| && NamesLength(fields[i]) ==> fields[i].value == Printed(n)
    ensures Answer(parse, head + part, end) == Err(if end == Failed then ReadFailed else Short(|part|, Some(n), end == Unclean))
  {
    hide Framing, Printed, NamesLength, SomeChunked, SomeLength;
    LengthFramed(status, fields, n);
    HeadThenMore(parse, head, status, fields, Length(n), part);
  }

  /** So is one whose last chunk never came. */
  lemma {:induction false} ShortChunks(parse: Parser, head: Bytes, status: nat, fields: seq<Field>, part: Bytes, end: Ending)
    requires Stable(parse) && IsHead(parse, head, status, fields) && SomeChunked(fields) && !SomeLength(fields)
    requires !Stopped(WordFeed(Start, part))
    ensures Answer(parse, head + part, end) == Err(if end == Failed then ReadFailed else Short(|part|, None, end == Unclean))
  {
    FramedExactly(status, fields);
    hide Framing, SomeChunked, SomeLength, WordFeed;
    HeadThenMore(parse, head, status, fields, Chunked, part);
  }

  /** With neither, the close ends the body; without a whole head there is no answer. */
  lemma {:induction false} CloseAnswer(parse: Parser, head: Bytes, status: nat, fields: seq<Field>, body: Bytes, end: Ending)
    requires Stable(parse) && IsHead(parse, head, status, fields) && !SomeChunked(fields) && !SomeLength(fields)
    ensures Answer(parse, head + body, end)
         == if end == Failed then Err(ReadFailed) else if |body| > 16_777_216 then Err(Oversize) else Ok(Response(status, fields, body))
    ensures forall b :: parse(b) == Ok(None) ==> Answer(parse, b, end) == Err(if end == Failed then ReadFailed else NoHead)
  {
    FramedExactly(status, fields);
    hide Framing, SomeChunked, SomeLength;
    HeadThenMore(parse, head, status, fields, BodyEnd.Close, body);
    forall b | parse(b) == Ok(None)
      ensures Answer(parse, b, end) == Err(if end == Failed then ReadFailed else NoHead)
    {
      assert b[0..] == b;
    }
  }

  lemma SameLength(fields: seq<Field>, n: nat, m: nat)
    requires SomeLength(fields) && AllState(fields, n) && AllState(fields, m)
    ensures n == m
  {
    hide NamesLength, StatesLength;
    var i :| 0 <= i < |fields| && NamesLength(fields[i]);
    LengthAt(fields, i);
    assert StatesLength(fields[i], n) && StatesLength(fields[i], m);
  }

  /** And one that says its body comes in chunks, in capitals or not, with the bytes of the chunks. */
  lemma {:induction false} CodedAnswer(parse: Parser, head: Bytes, status: nat, fields: seq<Field>, chunks: seq<Bytes>, after: Bytes, end: Ending)
    requires Stable(parse) && IsHead(parse, head, status, fields) && SomeChunked(fields)
    requires !SomeLength(fields) || exists n :: AllState(fields, n)
    requires (forall i :: 0 <= i < |chunks| ==> chunks[i] != []) && |Concat(chunks)| <= MAX_BODY
    ensures Answer(parse, head + (Encode(chunks) + after), end) == Ok(Response(status, fields, Concat(chunks)))
  {
    FramedExactly(status, fields);
    hide Framing, SomeChunked, SomeLength, AllState, Encode, Concat;
    ChunkedAnswer(parse, head, chunks, after, end);
  }

  lemma HeadThenMore(parse: Parser, head: Bytes, status: nat, fields: seq<Field>, bodyEnd: BodyEnd, tail: Bytes)
    requires Stable(parse) && IsHead(parse, head, status, fields) && Framing(status, fields) == Ok(bodyEnd)
    ensures FinalHead(parse, head + tail, 0) == Ok(Some(Head(status, fields, |head|, bodyEnd)))
    ensures (head + tail)[|head|..] == tail
  {
    hide Framing;
    assert head[0..] == head;
    HeadStable(parse, head, 0, tail);
  }

  /** A length over the cap is refused as soon as the head is there. */
  lemma {:induction false} LongAnswer(parse: Parser, head: Bytes, status: nat, fields: seq<Field>, n: nat, part: Bytes)
    requires Stable(parse) && IsHead(parse, head, status, fields) && 16 * 1024 * 1024 < n < USIZE_END
    requires !SomeChunked(fields) && SomeLength(fields)
    requires forall i :: 0 <= i < |fields| && NamesLength(fields[i]) ==> fields[i].value == Printed(n)
    ensures Decided(parse, head + part) == Some(Err(Oversize))
  {
    hide Framing, Printed, NamesLength, SomeChunked, SomeLength;
    LengthFramed(status, fields, n);
    HeadThenMore(parse, head, status, fields, Length(n), part);
  }
}
