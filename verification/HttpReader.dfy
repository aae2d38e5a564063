/** The response read loop: where a body ends (section 6.3 of RFC 9112), over any splitting into reads. */
module HttpReader {
  import opened Prelude
  import opened Dechunker

  const CAP: nat := MAX_BODY + 64 * 1024
  const READ_MAX: nat := 16 * 1024

  datatype Field = Field(name: Bytes, value: Bytes)

  /** A head as the HTTP parser reads it: `length` bytes long. */
  datatype RawHead = RawHead(status: nat, fields: seq<Field>, length: nat)

  datatype BodyEnd = Length(n: nat) | Chunked | Close

  datatype Head = Head(status: nat, fields: seq<Field>, consumed: nat, bodyEnd: BodyEnd)

  datatype Response = Response(status: nat, fields: seq<Field>, body: Bytes)

  datatype Error =
    | BadHead(code: nat)
    | NotANumber
    | TwoLengths
    | NoHead
    | Oversize
    | BadChunks(chunk: ChunkError)
    | Short(got: nat, want: Option<nat>, unclean: bool)
    | ReadFailed
    | Panicked

  /** How the reads end: the peer closes, closes without saying so, or the read fails. */
  datatype Ending = Clean | Unclean | Failed

  type Parser = Bytes -> Result<Option<RawHead>, Error>

  /** A head takes at least one of the bytes it was read from. */
  ghost predicate Sized(parse: Parser) {
    forall b :: parse(b).Ok? && parse(b).value.Some? ==> 0 < parse(b).value.value.length <= |b|
  }

  /** What the parser made of some bytes stands once more arrive; it makes nothing of none. */
  ghost predicate Stable(parse: Parser) {
    && Sized(parse) && parse([]) == Ok(None)
    && forall b, x :: parse(b) != Ok(None) ==> parse(b + x) == parse(b)
  }

  // ----- framing -----

  const TRANSFER_ENCODING: Bytes :=
    [116, 114, 97, 110, 115, 102, 101, 114, 45, 101, 110, 99, 111, 100, 105, 110, 103]
  const CONTENT_LENGTH: Bytes := [99, 111, 110, 116, 101, 110, 116, 45, 108, 101, 110, 103, 116, 104]
  const CHUNKED_WORD: Bytes := [99, 104, 117, 110, 107, 101, 100]

  function Lower(s: Bytes): Bytes {
    seq(|s|, i requires 0 <= i < |s| => if 65 <= s[i] <= 90 then s[i] + 32 else s[i])
  }

  predicate Contains(s: Bytes, word: Bytes) {
    word <= s || (s != [] && Contains(s[1..], word))
  }

  function DecimalValue(s: Bytes): Option<nat> {
    if s == [] then Some(0) else
      match DecimalValue(s[..|s| - 1])
      case Some(v) => if 48 <= s[|s| - 1] <= 57 then Some(10 * v + s[|s| - 1] - 48) else None
      case None => None
  }

  /** A `content-length` as the connector parses it: trimmed, then a machine-word decimal. */
  function LengthIn(value: Bytes): Option<nat> {
    var text := TrimEnd(TrimStart(value));
    var digits := if text != [] && text[0] == 43 then text[1..] else text;
    if digits == [] then None else
      var v := DecimalValue(digits);
      if v.Some? && v.value < USIZE_END then v else None
  }

  predicate SaysChunked(f: Field) {
    Lower(f.name) == TRANSFER_ENCODING && Contains(Lower(f.value), CHUNKED_WORD)
  }

  predicate SaysLength(f: Field) {
    Lower(f.name) == CONTENT_LENGTH
  }

  predicate NoBody(status: nat) {
    100 <= status < 200 || status == 204 || status == 304
  }

  /** The lengths the fields state, in order. */
  function LengthsIn(fields: seq<Field>): seq<Option<nat>> {
    if fields == [] then []
    else
      LengthsIn(fields[..|fields| - 1])
      + if SaysLength(fields[|fields| - 1]) then [LengthIn(fields[|fields| - 1].value)] else []
  }

  ghost predicate LengthsAgree(lengths: seq<Option<nat>>) {
    forall i :: 0 <= i < |lengths| ==> lengths[i].Some? && lengths[i] == lengths[0]
  }

  /** How a head with these fields ends its body. */
  function Framing(status: nat, fields: seq<Field>): Result<BodyEnd, Error> {
    match Lengths(LengthsIn(fields))
    case Err(e) => Err(e)
    case Ok(length) =>
      Ok(if NoBody(status) then Length(0)
         else if exists i :: 0 <= i < |fields| && SaysChunked(fields[i]) then Chunked
         else if length.Some? then Length(length.value) else Close)
  }

  function Lengths(lengths: seq<Option<nat>>): Result<Option<nat>, Error> {
    if lengths == [] then Ok(None)
    else
      var last := lengths[|lengths| - 1];
      match Lengths(lengths[..|lengths| - 1])
      case Err(e) => Err(e)
      case Ok(before) =>
        if last.None? then Err(NotANumber)
        else if before.Some? && before != last then Err(TwoLengths)
        else Ok(last)
  }

  /** The lengths are taken exactly when all are numbers and all agree. */
  lemma {:induction false} LengthsExactly(lengths: seq<Option<nat>>)
    ensures Lengths(lengths).Ok? <==> LengthsAgree(lengths)
    ensures Lengths(lengths).Ok? ==> Lengths(lengths).value == if lengths == [] then None else lengths[0]
  {
    if lengths != [] {
      var front := lengths[..|lengths| - 1];
      LengthsExactly(front);
      assert lengths == front + [lengths[|lengths| - 1]];
      if LengthsAgree(lengths) {
        assert LengthsAgree(front);
      }
    }
  }

  /** Two content-lengths that differ, or one that is no number, are refused whatever else the head says. */
  lemma {:induction false} FramingExactly(status: nat, fields: seq<Field>)
    ensures var r, lengths := Framing(status, fields), LengthsIn(fields);
      && (r.Ok? <==> LengthsAgree(lengths))
      && (r.Ok? && NoBody(status) ==> r.value == Length(0))
      && (r.Ok? && !NoBody(status) ==> (r.value == Chunked <==> exists i :: 0 <= i < |fields| && SaysChunked(fields[i])))
      && (r.Ok? && !NoBody(status) ==> (r.value == Close <==>
            lengths == [] && forall i :: 0 <= i < |fields| ==> !SaysChunked(fields[i])))
      && (r.Ok? && !NoBody(status) && r.value.Length? ==> forall i :: 0 <= i < |lengths| ==> lengths[i] == Some(r.value.n))
  {
    LengthsExactly(LengthsIn(fields));
  }

  method FrameBody(status: nat, fields: seq<Field>) returns (r: Result<BodyEnd, Error>)
    ensures r == Framing(status, fields)
  {
    hide LengthIn, SaysChunked, SaysLength, Lengths, LengthsIn, Lower;
    var length: Option<nat> := None;
    var chunked := false;
    NoFields(fields);
    var i := 0;
    while i < |fields|
      invariant 0 <= i <= |fields|
      invariant Lengths(LengthsIn(fields[..i])) == Ok(length)
      invariant chunked == exists j :: 0 <= j < i && SaysChunked(fields[j])
    {
      var f := fields[i];
      FieldStep(fields, i, length);
      if Lower(f.name) == TRANSFER_ENCODING {
        NotBoth(f);
        chunked := chunked || SaysChunked(f);
      } else if SaysLength(f) {
        OnlyOfCoding(f);
        var n := LengthIn(f.value);
        if n.None? || (length.Some? && length != n) {
          ErrorPersists(fields, i + 1);
          return Err(if n.None? then NotANumber else TwoLengths);
        }
        length := n;
      } else {
        OnlyOfCoding(f);
      }
      i := i + 1;
    }
    assert fields[..i] == fields;
    if 100 <= status < 200 || status == 204 || status == 304 {
      return Ok(Length(0));
    }
    if chunked {
      return Ok(Chunked);
    }
    return Ok(if length.Some? then Length(length.value) else Close);
  }

  lemma NoFields(fields: seq<Field>)
    ensures Lengths(LengthsIn(fields[..0])) == Ok(None)
  {
  }

  /** One more field: the length it states is taken, or refused. */
  lemma FieldStep(fields: seq<Field>, i: nat, length: Option<nat>)
    requires i < |fields| && Lengths(LengthsIn(fields[..i])) == Ok(length)
    ensures Lengths(LengthsIn(fields[..i + 1])) ==
      if !SaysLength(fields[i]) then Ok(length)
      else
        var n := LengthIn(fields[i].value);
        if n.None? then Err(NotANumber) else if length.Some? && length != n then Err(TwoLengths) else Ok(n)
  {
    hide LengthIn, SaysLength;
    LengthsStep(fields, i);
  }

  lemma LengthsStep(fields: seq<Field>, i: nat)
    requires i < |fields|
    ensures LengthsIn(fields[..i + 1])
         == LengthsIn(fields[..i]) + if SaysLength(fields[i]) then [LengthIn(fields[i].value)] else []
    ensures !SaysLength(fields[i]) ==> LengthsIn(fields[..i + 1]) == LengthsIn(fields[..i])
    ensures SaysLength(fields[i]) ==>
              LengthsIn(fields[..i + 1])[..|LengthsIn(fields[..i + 1])| - 1] == LengthsIn(fields[..i])
  {
    assert fields[..i + 1][..i] == fields[..i];
  }

  lemma NotBoth(f: Field)
    requires Lower(f.name) == TRANSFER_ENCODING
    ensures !SaysLength(f)
  {
    assert TRANSFER_ENCODING[0] == 116 && CONTENT_LENGTH[0] == 99;
  }

  lemma OnlyOfCoding(f: Field)
    requires Lower(f.name) != TRANSFER_ENCODING
    ensures !SaysChunked(f)
  {
  }

  lemma {:induction false} ErrorPersists(fields: seq<Field>, i: nat)
    requires i <= |fields| && Lengths(LengthsIn(fields[..i])).Err?
    ensures Lengths(LengthsIn(fields)) == Lengths(LengthsIn(fields[..i]))
    decreases |fields| - i
  {
    if i < |fields| {
      LengthsStep(fields, i);
      ErrorPersists(fields, i + 1);
    } else {
      assert fields[..i] == fields;
    }
  }

  // ----- heads -----

  function ParseHead(parse: Parser, b: Bytes): Result<Option<Head>, Error> {
    match parse(b)
    case Err(e) => Err(e)
    case Ok(None) => Ok(None)
    case Ok(Some(raw)) =>
      match Framing(raw.status, raw.fields)
      case Err(e) => Err(e)
      case Ok(bodyEnd) => Ok(Some(Head(raw.status, raw.fields, raw.length, bodyEnd)))
  }

  /** The first head from `at` that is not interim; `consumed` counts from the start. */
  function FinalHead(parse: Parser, buf: Bytes, at: nat): (r: Result<Option<Head>, Error>)
    requires Sized(parse) && at <= |buf|
    ensures r.Ok? && r.value.Some? ==> at < r.value.value.consumed <= |buf|
    ensures r.Ok? && r.value.Some? ==> !(100 <= r.value.value.status < 200)
    decreases |buf| - at
  {
    match ParseHead(parse, buf[at..])
    case Err(e) => Err(e)
    case Ok(None) => Ok(None)
    case Ok(Some(h)) =>
      if 100 <= h.status < 200 then FinalHead(parse, buf, at + h.consumed)
      else Ok(Some(h.(consumed := at + h.consumed)))
  }

  method FindHead(parse: Parser, buf: Bytes) returns (r: Result<Option<Head>, Error>)
    requires Sized(parse)
    ensures r == FinalHead(parse, buf, 0)
  {
    hide Framing;
    var at := 0;
    while true
      invariant at <= |buf|
      invariant FinalHead(parse, buf, at) == FinalHead(parse, buf, 0)
      decreases |buf| - at
    {
      var h := ParseHead(parse, buf[at..]);
      if h.Err? || h.value.None? {
        return h;
      }
      var head := h.value.value;
      if 100 <= head.status < 200 {
        at := at + head.consumed;
      } else {
        return Ok(Some(head.(consumed := at + head.consumed)));
      }
    }
  }

  lemma {:induction false} HeadStable(parse: Parser, buf: Bytes, at: nat, x: Bytes)
    requires Stable(parse) && at <= |buf| && FinalHead(parse, buf, at) != Ok(None)
    ensures FinalHead(parse, buf + x, at) == FinalHead(parse, buf, at)
    decreases |buf| - at
  {
    hide Framing;
    assert (buf + x)[at..] == buf[at..] + x;
    match ParseHead(parse, buf[at..])
    case Ok(Some(h)) =>
      if 100 <= h.status < 200 {
        HeadStable(parse, buf, at + h.consumed, x);
      }
    case _ =>
  }

  // ----- what the bytes mean -----

  function OfChunks(e: ChunkError): Error {
    if e == ChunkError.TooLarge then Oversize else BadChunks(e)
  }

  /** The body, once `raw` holds all of it. */
  function Body(end: BodyEnd, raw: Bytes): Option<Result<Bytes, Error>> {
    match end
    case Length(n) =>
      if n > MAX_BODY then Some(Err(Oversize)) else if |raw| >= n then Some(Ok(raw[..n])) else None
    case Chunked =>
      var r := WordFeed(Start, raw);
      if r.None? then Some(Err(Panicked))
      else if r.value.1.Some? then Some(Err(OfChunks(r.value.1.value)))
      else if !r.value.0.done then None
      else if |r.value.0.out| > MAX_BODY then Some(Err(Oversize))
      else Some(Ok(r.value.0.out))
    case Close => None
  }

  /** The answer the bytes give by themselves, whatever follows them: none while more is needed. */
  function Decided(parse: Parser, buf: Bytes): Option<Result<Response, Error>>
    requires Sized(parse)
  {
    match FinalHead(parse, buf, 0)
    case Err(e) => Some(Err(e))
    case Ok(None) => None
    case Ok(Some(h)) =>
      match Body(h.bodyEnd, buf[h.consumed..])
      case None => None
      case Some(Err(e)) => Some(Err(e))
      case Some(Ok(body)) => Some(Ok(Response(h.status, h.fields, body)))
  }

  /** The answer when the bytes end before they decide one. */
  function AtEnd(parse: Parser, buf: Bytes, end: Ending): Result<Response, Error>
    requires Sized(parse)
  {
    if end == Failed then Err(ReadFailed) else
      match FinalHead(parse, buf, 0)
      case Err(e) => Err(e)
      case Ok(None) => Err(NoHead)
      case Ok(Some(h)) =>
        var raw := buf[h.consumed..];
        match h.bodyEnd
        case Length(n) => Err(Short(|raw|, Some(n), end == Unclean))
        case Chunked => Err(Short(|raw|, None, end == Unclean))
        case Close => if |raw| > MAX_BODY then Err(Oversize) else Ok(Response(h.status, h.fields, raw))
  }

  /** The one-shot reading: all the bytes, and how they end. */
  function Answer(parse: Parser, all: Bytes, end: Ending): Result<Response, Error>
    requires Sized(parse)
  {
    match Decided(parse, all)
    case Some(r) => r
    case None => AtEnd(parse, all, end)
  }

  lemma {:induction false} BodyStable(end: BodyEnd, raw: Bytes, x: Bytes)
    requires Body(end, raw).Some?
    ensures Body(end, raw + x) == Body(end, raw)
  {
    hide WordFeed;
    match end
    case Length(n) =>
      if n <= MAX_BODY {
        assert (raw + x)[..n] == raw[..n];
      }
    case Chunked => WordErrorStays(Start, raw, x);
    case Close =>
  }

  /** Once the bytes decide an answer, no later byte changes it. */
  lemma {:induction false} DecidedStable(parse: Parser, buf: Bytes, x: Bytes)
    requires Stable(parse) && Decided(parse, buf).Some?
    ensures Decided(parse, buf + x) == Decided(parse, buf)
  {
    hide Body, FinalHead;
    HeadStable(parse, buf, 0, x);
    match FinalHead(parse, buf, 0)
    case Ok(Some(h)) =>
      HeadBounds(parse, buf);
      assert (buf + x)[h.consumed..] == buf[h.consumed..] + x;
      BodyStable(h.bodyEnd, buf[h.consumed..], x);
    case _ =>
  }

  lemma HeadBounds(parse: Parser, buf: Bytes)
    requires Sized(parse) && FinalHead(parse, buf, 0).Ok? && FinalHead(parse, buf, 0).value.Some?
    ensures FinalHead(parse, buf, 0).value.value.consumed <= |buf|
  {
  }

  lemma {:induction false} PrefixDecides(parse: Parser, arrivals: seq<Bytes>, i: nat, end: Ending)
    requires Stable(parse) && i <= |arrivals| && Decided(parse, Concat(arrivals[..i])).Some?
    ensures Answer(parse, Concat(arrivals), end) == Decided(parse, Concat(arrivals[..i])).value
  {
    hide Decided;
    ConcatAppend(arrivals[..i], arrivals[i..]);
    assert arrivals[..i] + arrivals[i..] == arrivals;
    DecidedStable(parse, Concat(arrivals[..i]), Concat(arrivals[i..]));
  }

  lemma ConcatStep(arrivals: seq<Bytes>, i: nat)
    requires i < |arrivals|
    ensures Concat(arrivals[..i + 1]) == Concat(arrivals[..i]) + arrivals[i]
  {
    ConcatAppend(arrivals[..i], [arrivals[i]]);
    assert arrivals[..i + 1] == arrivals[..i] + [arrivals[i]];
    assert Concat([arrivals[i]]) == arrivals[i] + Concat([arrivals[i]][1..]);
  }

  lemma PrefixFits(arrivals: seq<Bytes>, i: nat)
    requires i <= |arrivals|
    ensures |Concat(arrivals[..i])| <= |Concat(arrivals)|
  {
    ConcatAppend(arrivals[..i], arrivals[i..]);
    assert arrivals[..i] + arrivals[i..] == arrivals;
  }

  // ----- the loop -----

  /** What the loop holds agrees with the bytes read so far. */
  ghost predicate Tracks(parse: Parser, buf: Bytes, head: Option<Head>, chunks: Decoder)
    requires Sized(parse)
  {
    && FinalHead(parse, buf, 0) == Ok(head)
    && (head.Some? && head.value.bodyEnd.Length? ==> head.value.bodyEnd.n <= MAX_BODY)
    && if head.Some? && head.value.bodyEnd.Chunked? then WordFeed(Start, buf[head.value.consumed..]) == Some((chunks, None))
       else chunks == Start
  }

  predicate Complete(head: Option<Head>, buf: Bytes, done: bool) {
    && head.Some? && head.value.consumed <= |buf|
    && match head.value.bodyEnd
       case Length(n) => |buf| - head.value.consumed >= n
       case Chunked => done
       case Close => false
  }

  lemma CompleteDecides(parse: Parser, buf: Bytes, head: Option<Head>, chunks: Decoder)
    requires Sized(parse) && Tracks(parse, buf, head, chunks)
    ensures Complete(head, buf, chunks.done) <==> Decided(parse, buf).Some?
  {
    hide WordFeed;
    if head.Some? {
      HeadBounds(parse, buf);
    }
  }

  /** The head as the loop finds it: kept once found. */
  lemma HeadKept(parse: Parser, buf: Bytes, x: Bytes, head: Head)
    requires Stable(parse) && FinalHead(parse, buf, 0) == Ok(Some(head))
    ensures FinalHead(parse, buf + x, 0) == Ok(Some(head)) && head.consumed <= |buf|
    ensures (buf + x)[head.consumed..] == buf[head.consumed..] + x
  {
    HeadStable(parse, buf, 0, x);
  }

  /** One read's bytes are taken in. */
  method Take(parse: Parser, ghost buf: Bytes, ghost x: Bytes, now: Bytes, head: Option<Head>, chunks: Dechunker)
      returns (r: Result<Option<Head>, Error>)
    requires Stable(parse) && now == buf + x && Tracks(parse, buf, head, chunks.View())
    modifies chunks
    ensures r.Ok? ==> Tracks(parse, now, r.value, chunks.View())
    ensures r.Err? ==> Decided(parse, now) == Some(Err(r.error))
  {
    hide FinalHead, WordFeed;
    var h := head;
    if head.None? {
      var found := FindHead(parse, now);
      if found.Err? {
        return found;
      }
      h := found.value;
    } else {
      HeadKept(parse, buf, x, head.value);
    }
    if h.Some? {
      HeadBounds(parse, now);
      if h.value.bodyEnd.Length? && h.value.bodyEnd.n > MAX_BODY {
        return Err(Oversize);
      }
      if h.value.bodyEnd.Chunked? {
        ghost var raw := now[h.value.consumed..];
        ghost var before := if head.Some? then buf[h.value.consumed..] else [];
        if head.Some? {
          FedSoFar(before, x, chunks.View());
        }
        var panics, e := chunks.FeedBytes(now[h.value.consumed..]);
        if panics {
          return Err(Panicked);
        }
        if e.Some? {
          return Err(OfChunks(e.value));
        }
      }
    }
    return Ok(h);
  }

  lemma FedSoFar(before: Bytes, x: Bytes, chunks: Decoder)
    requires WordFeed(Start, before) == Some((chunks, None))
    ensures WordFeed(chunks, before + x) == WordFeed(Start, before + x)
  {
    WordFeedResumes(Start, before, x);
  }

  /** Send nothing, read all: the answer, and how many reads were made, the last end included. */
  method Exchange(parse: Parser, arrivals: seq<Bytes>, end: Ending)
      returns (r: Result<Response, Error>, made: nat)
    requires Stable(parse)
    requires forall i :: 0 <= i < |arrivals| ==> 0 < |arrivals[i]| <= READ_MAX
    ensures |Concat(arrivals)| <= 16 * 1024 * 1024 + 64 * 1024 ==> r == Answer(parse, Concat(arrivals), end)
    ensures |Concat(arrivals)| > 16 * 1024 * 1024 + 64 * 1024 ==> r == Answer(parse, Concat(arrivals), end) || r == Err(Oversize)
    ensures forall k :: 0 <= k < made ==> k <= |arrivals| && Decided(parse, Concat(arrivals[..k])).None?
    ensures |Concat(arrivals[..if made <= |arrivals| then made else |arrivals|])| <= CAP + READ_MAX
  {
    hide Concat, FinalHead, WordFeed, Decided, Tracks, Complete, Answer, AtEnd;
    var buf: Bytes := [];
    var head: Option<Head> := None;
    var chunks := new Dechunker();
    made := 0;
    NothingYet(parse, arrivals);
    while true
      invariant made <= |arrivals| && buf == Concat(arrivals[..made]) && |buf| <= CAP
      invariant Tracks(parse, buf, head, chunks.View())
      invariant fresh(chunks)
      invariant forall k :: 0 <= k < made ==> Decided(parse, Concat(arrivals[..k])).None?
      decreases |arrivals| - made
    {
      CompleteDecides(parse, buf, head, chunks.View());
      if Complete(head, buf, chunks.done) {
        PrefixDecides(parse, arrivals, made, end);
        EndDecides(parse, buf, end);
        r := Finish(parse, buf, head, chunks, end);
        return r, made;
      }
      if made == |arrivals| {
        assert arrivals[..made] == arrivals;
        EndDecides(parse, buf, end);
        if end == Failed {
          FailedEnd(parse, buf);
          return Err(ReadFailed), made + 1;
        }
        r := Finish(parse, buf, head, chunks, end);
        return r, made + 1;
      }
      ConcatStep(arrivals, made);
      ghost var before := buf;
      buf := buf + arrivals[made];
      made := made + 1;
      var taken := Take(parse, before, arrivals[made - 1], buf, head, chunks);
      if taken.Err? {
        PrefixDecides(parse, arrivals, made, end);
        return Err(taken.error), made;
      }
      head := taken.value;
      if |buf| > CAP {
        PrefixFits(arrivals, made);
        return Err(Oversize), made;
      }
    }
  }

  lemma NothingYet(parse: Parser, arrivals: seq<Bytes>)
    requires Stable(parse)
    ensures Concat(arrivals[..0]) == [] && Tracks(parse, [], None, Start)
  {
    var nothing: Bytes := [];
    assert nothing[0..] == [];
  }

  lemma EndDecides(parse: Parser, all: Bytes, end: Ending)
    requires Stable(parse)
    ensures Decided(parse, all).None? ==> Answer(parse, all, end) == AtEnd(parse, all, end)
    ensures Decided(parse, all).Some? ==> Answer(parse, all, end) == Decided(parse, all).value
  {
  }

  lemma FailedEnd(parse: Parser, all: Bytes)
    requires Stable(parse)
    ensures AtEnd(parse, all, Failed) == Err(ReadFailed)
  {
  }

  /** The answer once the loop has stopped. What was read before reads the same again, so neither `?` can fail. */
  method Finish(parse: Parser, buf: Bytes, found: Option<Head>, chunks: Dechunker, end: Ending)
      returns (r: Result<Response, Error>)
    requires Stable(parse) && Tracks(parse, buf, found, chunks.View())
    requires Decided(parse, buf).Some? || end != Failed
    modifies chunks
    ensures r == Answer(parse, buf, end)
  {
    hide FinalHead, WordFeed;
    var again := FindHead(parse, buf);
    if again.Err? {
      assert false;
    }
    var head := if found.Some? then found else again.value;
    if head.None? {
      return Err(NoHead);
    }
    HeadBounds(parse, buf);
    var h := head.value;
    var raw := buf[h.consumed..];
    match h.bodyEnd {
      case Length(n) =>
        if |raw| < n {
          return Err(Short(|raw|, Some(n), end == Unclean));
        }
        return Ok(Response(h.status, h.fields, raw[..n]));
      case Chunked =>
        FedAlready(raw, chunks.View());
        var panics, e := chunks.FeedBytes(raw);
        if panics || e.Some? {
          assert false;
        }
        if !chunks.done {
          return Err(Short(|raw|, None, end == Unclean));
        }
        if |chunks.out| > MAX_BODY {
          return Err(Oversize);
        }
        return Ok(Response(h.status, h.fields, chunks.out));
      case Close =>
        if |raw| > MAX_BODY {
          return Err(Oversize);
        }
        return Ok(Response(h.status, h.fields, raw));
    }
  }

  lemma FedAlready(raw: Bytes, chunks: Decoder)
    requires WordFeed(Start, raw) == Some((chunks, None))
    ensures WordFeed(chunks, raw) == Some((chunks, None))
  {
    WordFeedResumes(Start, raw, []);
    assert raw + [] == raw;
  }

  // ----- what the answer is -----

  function Shifted(r: Result<Option<Head>, Error>, skip: nat): Result<Option<Head>, Error> {
    if r.Ok? && r.value.Some? then Ok(Some(r.value.value.(consumed := skip + r.value.value.consumed))) else r
  }

  lemma {:induction false} HeadShift(parse: Parser, b: Bytes, skip: nat, at: nat)
    requires Sized(parse) && skip + at <= |b|
    ensures FinalHead(parse, b, skip + at) == Shifted(FinalHead(parse, b[skip..], at), skip)
    decreases |b| - at
  {
    hide Framing;
    assert b[skip..][at..] == b[skip + at..];
    match ParseHead(parse, b[skip + at..])
    case Ok(Some(h)) =>
      if 100 <= h.status < 200 {
        HeadShift(parse, b, skip, at + h.consumed);
      }
    case _ =>
  }

  /** An interim head makes no difference: the answer is that of the bytes after it. */
  lemma {:induction false} InterimSkipped(parse: Parser, b: Bytes, end: Ending)
    requires Sized(parse)
    requires ParseHead(parse, b).Ok? && ParseHead(parse, b).value.Some?
    requires 100 <= ParseHead(parse, b).value.value.status < 200
    ensures Answer(parse, b, end) == Answer(parse, b[ParseHead(parse, b).value.value.consumed..], end)
  {
    var skip := ParseHead(parse, b).value.value.consumed;
    assert b[0..] == b;
    assert FinalHead(parse, b, 0) == FinalHead(parse, b, skip);
    HeadShift(parse, b, skip, 0);
    hide FinalHead, ParseHead, Answer;
    AnswerShift(parse, b, skip, end);
  }

  lemma AnswerShift(parse: Parser, b: Bytes, skip: nat, end: Ending)
    requires Sized(parse) && skip <= |b|
    requires FinalHead(parse, b, 0) == Shifted(FinalHead(parse, b[skip..], 0), skip)
    ensures Answer(parse, b, end) == Answer(parse, b[skip..], end)
  {
    hide FinalHead, Body;
    var r := FinalHead(parse, b[skip..], 0);
    if r.Ok? && r.value.Some? {
      HeadBounds(parse, b[skip..]);
      assert b[skip..][r.value.value.consumed..] == b[skip + r.value.value.consumed..];
    }
  }

  /** What a whole body is, by the framing. */
  ghost predicate WholeBody(h: Head, raw: Bytes, end: Ending, body: Bytes) {
    match h.bodyEnd
    case Length(n) => n <= |raw| && body == raw[..n]
    case Chunked => exists at :: 0 <= at <= |raw| && IsChunked(raw[..at], body)
    case Close => end != Failed && body == raw
  }

  /**
   An answer is given exactly when a final head and its whole body are there, within
   the cap. No buffer is longer than `SLICE_MAX`.
   */
  lemma {:induction false} AnsweredExactly(parse: Parser, all: Bytes, end: Ending, response: Response)
    requires Stable(parse) && |all| <= SLICE_MAX
    ensures Answer(parse, all, end) == Ok(response) <==>
      var r := FinalHead(parse, all, 0);
      && r.Ok? && r.value.Some? && |response.body| <= 16 * 1024 * 1024
      && response.status == r.value.value.status && response.fields == r.value.value.fields
      && WholeBody(r.value.value, all[r.value.value.consumed..], end, response.body)
  {
    hide FinalHead, Body;
    match FinalHead(parse, all, 0)
    case Ok(Some(h)) =>
      HeadBounds(parse, all);
      BodyExactly(h, all[h.consumed..], end, response.body);
    case _ =>
  }

  lemma {:induction false} BodyExactly(h: Head, raw: Bytes, end: Ending, body: Bytes)
    requires |raw| <= SLICE_MAX
    ensures h.bodyEnd != Close ==> (Body(h.bodyEnd, raw) == Some(Ok(body)) <==> |body| <= MAX_BODY && WholeBody(h, raw, end, body))
    ensures h.bodyEnd == Close ==> Body(h.bodyEnd, raw) == None
  {
    ChunkedExactly(raw, body);
    hide WordFeed, IsChunked;
  }

  lemma {:induction false} ChunkedExactly(raw: Bytes, body: Bytes)
    requires |raw| <= SLICE_MAX
    ensures Body(Chunked, raw) == Some(Ok(body)) <==> |body| <= MAX_BODY && exists at :: 0 <= at <= |raw| && IsChunked(raw[..at], body)
  {
    hide WordFeed, IsChunked;
    if Body(Chunked, raw) == Some(Ok(body)) {
      WordDoneExactly(raw, body, WordFeed(Start, raw).value.0.at);
    }
    if |body| <= MAX_BODY && exists at :: 0 <= at <= |raw| && IsChunked(raw[..at], body) {
      var at :| 0 <= at <= |raw| && IsChunked(raw[..at], body);
      WordDoneExactly(raw, body, at);
    }
  }

  // ----- where a chunk's size wraps -----

  /** What exact sums make of a chunked body, `short` where it is not all there. */
  function Intended(h: Head, raw: Bytes, short: Result<Response, Error>): Result<Response, Error> {
    var r := Feed(Start, raw);
    if r.1.Some? then Err(OfChunks(r.1.value)) else if r.0.done then Ok(Response(h.status, h.fields, r.0.out)) else short
  }

  /**
   A chunked response is answered as exact sums answer it exactly when the decoder does
   not stop at a size that wraps. Where it does, the size is too large, and is refused
   as a bad end, or waited for, or stops the reader.
   */
  lemma {:induction false} WrappedExactly(parse: Parser, all: Bytes, end: Ending)
    requires Stable(parse) && |all| <= SLICE_MAX
    requires FinalHead(parse, all, 0).Ok? && FinalHead(parse, all, 0).value.Some?
    requires FinalHead(parse, all, 0).value.value.bodyEnd == Chunked
    ensures var h := FinalHead(parse, all, 0).value.value;
      var raw := all[h.consumed..];
      var intended := Intended(h, raw, AtEnd(parse, all, end));
      && (Answer(parse, all, end) == intended <==> StopsWithin(Feed(Start, raw).0, raw))
      && (!StopsWithin(Feed(Start, raw).0, raw) ==>
            intended == Err(Oversize)
            && Answer(parse, all, end) in {Err(BadChunks(BadEnd)), AtEnd(parse, all, end), Err(Panicked)})
  {
    hide FinalHead, Feed, WordFeed, StopsWithin;
    HeadBounds(parse, all);
    var h := FinalHead(parse, all, 0).value.value;
    var raw := all[h.consumed..];
    WordFeedExactly(Start, raw);
    FeedBounds(raw);
    FeedNoErrorDone(raw);
    if !StopsWithin(Feed(Start, raw).0, raw) {
      WordFeedWraps(Start, raw);
    }
  }

  lemma FeedNoErrorDone(raw: Bytes)
    ensures Feed(Start, raw).0.done ==> Feed(Start, raw).1.None?
  {
    StillNoError(Start, raw);
  }

  lemma {:induction false} StillNoError(d: Decoder, raw: Bytes)
    ensures Feed(d, raw).0.done ==> Feed(d, raw).1.None?
    decreases |Left(d, raw)|
  {
    hide NextFrame;
    if !d.done {
      match NextFrame(Left(d, raw), |d.out|)
      case Chunk(start, size) => StillNoError(Taken(d, Left(d, raw), start, size), raw);
      case _ =>
    }
  }

  /** A chunked response sent whole is answered with the chunks' bytes, however it ends and whatever follows. */
  lemma {:induction false} ChunkedAnswer(parse: Parser, head: Bytes, chunks: seq<Bytes>, after: Bytes, end: Ending)
    requires Stable(parse) && ParseHead(parse, head).Ok? && ParseHead(parse, head).value.Some?
    requires ParseHead(parse, head).value.value.consumed == |head|
    requires ParseHead(parse, head).value.value.bodyEnd == Chunked
    requires forall i :: 0 <= i < |chunks| ==> chunks[i] != []
    requires |Concat(chunks)| <= MAX_BODY
    ensures var h := ParseHead(parse, head).value.value;
      Answer(parse, head + (Encode(chunks) + after), end) == Ok(Response(h.status, h.fields, Concat(chunks)))
  {
    hide Framing, WordFeed, Encode, Concat;
    var tail := Encode(chunks) + after;
    assert head[0..] == head;
    NeverInterim(parse, head);
    HeadStable(parse, head, 0, tail);
    assert (head + tail)[|head|..] == tail;
    WordEncodeDecodes(chunks, after);
  }

  lemma NeverInterim(parse: Parser, b: Bytes)
    requires ParseHead(parse, b).Ok? && ParseHead(parse, b).value.Some?
    requires ParseHead(parse, b).value.value.bodyEnd == Chunked
    ensures !(100 <= ParseHead(parse, b).value.value.status < 200)
  {
  }
}
