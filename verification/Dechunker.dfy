/** Chunked transfer decoding (section 7.1 of RFC 9112), resumable. */
module Dechunker {
  import opened Prelude

  const MAX_BODY: nat := 16 * 1024 * 1024
  const USIZE_END: nat := 0x1_0000_0000_0000_0000

  const CR: byte := 13
  const LF: byte := 10
  const CRLF: Bytes := [CR, LF]

  datatype ChunkError = BadSize | TooLarge | BadEnd

  /** Where the first CRLF starts. */
  function FirstCrlf(s: Bytes): (r: Option<nat>)
    ensures r.Some? ==> r.value + 2 <= |s| && s[r.value..r.value + 2] == CRLF
  {
    if |s| < 2 then None
    else if s[0] == CR && s[1] == LF then Some(0)
    else
      match FirstCrlf(s[1..])
      case None => None
      case Some(i) => Some(i + 1)
  }

  // ----- the size line -----

  /** The part before a `;`, which starts the chunk extensions. */
  function BeforeSemicolon(s: Bytes): Bytes {
    if s == [] || s[0] == 59 then [] else [s[0]] + BeforeSemicolon(s[1..])
  }

  /** How many bytes the Unicode white space at the start of UTF-8 text takes. */
  function SpaceAtStart(s: Bytes): (n: nat)
    ensures n <= |s|
  {
    if |s| >= 1 && (9 <= s[0] <= 13 || s[0] == 32) then 1
    else if |s| >= 2 && s[0] == 0xC2 && (s[1] == 0x85 || s[1] == 0xA0) then 2
    else if |s| >= 3 && IsWideSpace(s[0], s[1], s[2]) then 3
    else 0
  }

  function SpaceAtEnd(s: Bytes): (n: nat)
    ensures n <= |s|
  {
    var l := |s|;
    if l >= 1 && (9 <= s[l - 1] <= 13 || s[l - 1] == 32) then 1
    else if l >= 2 && s[l - 2] == 0xC2 && (s[l - 1] == 0x85 || s[l - 1] == 0xA0) then 2
    else if l >= 3 && IsWideSpace(s[l - 3], s[l - 2], s[l - 1]) then 3
    else 0
  }

  predicate IsWideSpace(a: byte, b: byte, c: byte) {
    || (a == 0xE1 && b == 0x9A && c == 0x80)
    || (a == 0xE2 && b == 0x80 && (0x80 <= c <= 0x8A || c == 0xA8 || c == 0xA9 || c == 0xAF))
    || (a == 0xE2 && b == 0x81 && c == 0x9F)
    || (a == 0xE3 && b == 0x80 && c == 0x80)
  }

  function TrimStart(s: Bytes): Bytes {
    var n := SpaceAtStart(s);
    if n == 0 then s else TrimStart(s[n..])
  }

  function TrimEnd(s: Bytes): Bytes {
    var n := SpaceAtEnd(s);
    if n == 0 then s else TrimEnd(s[..|s| - n])
  }

  function HexDigit(b: byte): Option<nat> {
    if 48 <= b <= 57 then Some(b - 48)
    else if 65 <= b <= 70 then Some(b - 55)
    else if 97 <= b <= 102 then Some(b - 87)
    else None
  }

  function HexValue(s: Bytes): Option<nat> {
    if s == [] then Some(0) else
      match (HexValue(s[..|s| - 1]), HexDigit(s[|s| - 1]))
      case (Some(v), Some(d)) => Some(16 * v + d)
      case _ => None
  }

  /** The size a chunk's first line states, as `usize::from_str_radix` reads it. */
  function SizeOf(line: Bytes): (r: Option<nat>)
    ensures r.Some? ==> r.value < USIZE_END
  {
    var text := TrimEnd(TrimStart(BeforeSemicolon(line)));
    var digits := if text != [] && text[0] == 43 then text[1..] else text;
    if digits == [] then None else
      var v := HexValue(digits);
      if v.Some? && v.value < USIZE_END then v else None
  }

  // ----- the decoder -----

  /** `out` is decoded, `at` bytes of the body are read, `done` once the last chunk was. */
  datatype Decoder = Decoder(out: Bytes, at: nat, done: bool)

  const Start: Decoder := Decoder([], 0, false)

  datatype Frame = Incomplete | Last(length: nat) | Chunk(start: nat, size: nat) | Bad(error: ChunkError)

  /** The next frame of what is left, with `decoded` bytes already out. */
  function NextFrame(rest: Bytes, decoded: nat): (f: Frame)
    ensures f.Last? ==> 0 < f.length <= |rest|
    ensures f.Chunk? ==> 0 < f.size && f.start + f.size + 2 <= |rest| && decoded + f.size <= MAX_BODY
  {
    match FirstCrlf(rest)
    case None => Incomplete
    case Some(eol) =>
      match SizeOf(rest[..eol])
      case None => Bad(BadSize)
      case Some(size) =>
        var data := eol + 2;
        if size == 0 then Last(data)
        else if decoded + size > MAX_BODY then Bad(TooLarge)
        else if |rest| < data + size + 2 then Incomplete
        else if rest[data + size..data + size + 2] != CRLF then Bad(BadEnd)
        else Chunk(data, size)
  }

  function Left(d: Decoder, raw: Bytes): Bytes {
    if d.at <= |raw| then raw[d.at..] else []
  }

  /** Read every whole frame `raw` holds beyond what earlier calls read. */
  function Feed(d: Decoder, raw: Bytes): (r: (Decoder, Option<ChunkError>))
    ensures d.at <= |raw| ==> d.at <= r.0.at <= |raw|
    ensures |d.out| <= MAX_BODY ==> |r.0.out| <= MAX_BODY
    decreases |Left(d, raw)|
  {
    if d.done then (d, None) else
      var rest := Left(d, raw);
      match NextFrame(rest, |d.out|)
      case Incomplete => (d, None)
      case Bad(e) => (d, Some(e))
      case Last(length) => (d.(at := d.at + length, done := true), None)
      case Chunk(start, size) =>
        Feed(Taken(d, rest, start, size), raw)
  }

  /** The decoder past one chunk. */
  function Taken(d: Decoder, rest: Bytes, start: nat, size: nat): Decoder
    requires start + size + 2 <= |rest|
  {
    Decoder(d.out + rest[start..start + size], d.at + start + size + 2, false)
  }

  /** The decoder as the read loop holds it. */
  class Dechunker {
    var out: Bytes
    var at: nat
    var done: bool

    constructor ()
      ensures View() == Start
    {
      out, at, done := [], 0, false;
    }

    ghost function View(): Decoder
      reads this
    {
      Decoder(out, at, done)
    }

    /** As an optimized build runs it: sums are machine words, and a slice out of bounds panics. */
    method FeedBytes(raw: Bytes) returns (panics: bool, error: Option<ChunkError>)
      modifies this
      ensures WordFeed(old(View()), raw) == if panics then None else Some((View(), error))
    {
      hide FirstCrlf, SizeOf, WordFeed, WordFrame, Left, WordSum;
      while !done
        invariant WordFeed(View(), raw) == WordFeed(old(View()), raw)
        decreases !done, |Left(View(), raw)|
      {
        WordCases(View(), raw);
        var rest := raw[if at <= |raw| then at else |raw|..];
        var eol := FirstCrlf(rest);
        if eol.None? {
          return false, None;
        }
        var size := SizeOf(rest[..eol.value]);
        if size.None? {
          return false, Some(BadSize);
        }
        var data := eol.value + 2;
        if size.value == 0 {
          at := at + data;
          done := true;
          return false, None;
        }
        if WordSum(|out|, size.value) > MAX_BODY {
          return false, Some(TooLarge);
        }
        var end := WordSum(data, size.value);
        var after := WordSum(end, 2);
        if |rest| < after {
          return false, None;
        }
        if end > after {
          return true, None;
        }
        if rest[end..after] != CRLF {
          return false, Some(BadEnd);
        }
        if data > end {
          return true, None;
        }
        out := out + rest[data..end];
        at := at + after;
      }
      DoneWords(View(), raw);
      return false, None;
    }
  }

  lemma DoneWords(d: Decoder, raw: Bytes)
    requires d.done
    ensures WordFeed(d, raw) == Some((d, None))
  {
  }

  /** One turn of the loop with machine words. */
  lemma WordCases(d: Decoder, raw: Bytes)
    requires !d.done
    ensures var rest := Left(d, raw);
      && rest == raw[if d.at <= |raw| then d.at else |raw|..]
      && match FirstCrlf(rest)
         case None => WordFeed(d, raw) == Some((d, None))
         case Some(eol) =>
           match SizeOf(rest[..eol])
           case None => WordFeed(d, raw) == Some((d, Some(BadSize)))
           case Some(size) =>
             var data := eol + 2;
             var end := WordSum(data, size);
             var after := WordSum(end, 2);
             if size == 0 then WordFeed(d, raw) == Some((d.(at := d.at + data, done := true), None))
             else if WordSum(|d.out|, size) > MAX_BODY then WordFeed(d, raw) == Some((d, Some(TooLarge)))
             else if |rest| < after then WordFeed(d, raw) == Some((d, None))
             else if end > after then WordFeed(d, raw) == None
             else if rest[end..after] != CRLF then WordFeed(d, raw) == Some((d, Some(BadEnd)))
             else if data > end then WordFeed(d, raw) == None
             else
               var next := Decoder(d.out + rest[data..end], d.at + after, false);
               WordFeed(d, raw) == WordFeed(next, raw) && |Left(next, raw)| < |rest|
  {
    hide FirstCrlf, SizeOf, WordSum, WordFrame;
    WordFrameCases(Left(d, raw), |d.out|);
    WordFeedCases(d, raw);
    hide WordFeed;
  }

  lemma WordFeedCases(d: Decoder, raw: Bytes)
    requires !d.done
    ensures var f := WordFrame(Left(d, raw), |d.out|);
      && (f.None? ==> WordFeed(d, raw) == None)
      && (f == Some(Incomplete) ==> WordFeed(d, raw) == Some((d, None)))
      && (f.Some? && f.value.Bad? ==> WordFeed(d, raw) == Some((d, Some(f.value.error))))
      && (f.Some? && f.value.Last? ==> WordFeed(d, raw) == Some((d.(at := d.at + f.value.length, done := true), None)))
      && (f.Some? && f.value.Chunk? ==>
           var next := Taken(d, Left(d, raw), f.value.start, f.value.size);
           WordFeed(d, raw) == WordFeed(next, raw) && |Left(next, raw)| < |Left(d, raw)|)
  {
    hide WordFrame;
  }

  lemma WordFrameCases(rest: Bytes, decoded: nat)
    ensures match FirstCrlf(rest)
      case None => WordFrame(rest, decoded) == Some(Incomplete)
      case Some(eol) =>
        match SizeOf(rest[..eol])
        case None => WordFrame(rest, decoded) == Some(Bad(BadSize))
        case Some(size) =>
          var data := eol + 2;
          var end := WordSum(data, size);
          var after := WordSum(end, 2);
          (data <= end <= after <= |rest| ==> end == data + size && after == end + 2) &&
          WordFrame(rest, decoded) ==
          if size == 0 then Some(Last(data))
          else if WordSum(decoded, size) > MAX_BODY then Some(Bad(TooLarge))
          else if |rest| < after then Some(Incomplete)
          else if end > after then None
          else if rest[end..after] != CRLF then Some(Bad(BadEnd))
          else if data > end then None
          else Some(Chunk(data, size))
  {
    hide FirstCrlf, SizeOf, WordSum;
    match FirstCrlf(rest)
    case None =>
    case Some(eol) =>
      match SizeOf(rest[..eol])
      case None =>
      case Some(size) => WordEnds(eol + 2, size);
  }

  /** Ends of a chunk that stand in order did not wrap. */
  lemma WordEnds(data: nat, size: nat)
    requires size < USIZE_END
    ensures var end := WordSum(data, size);
      var after := WordSum(end, 2);
      data <= end <= after ==> end == data + size && after == end + 2
  {
    if data + size >= USIZE_END && data < USIZE_END {
      WordSumWraps(data, size);
    }
  }

  // ----- machine words -----

  /** The longest slice there is. */
  const SLICE_MAX: nat := 0x7fff_ffff_ffff_ffff

  /** A sum in a machine word, which an optimized build does not check. */
  function WordSum(a: nat, b: nat): nat {
    (a + b) % USIZE_END
  }

  /** The next frame with every sum a machine word's; none where a slice would be out of bounds. */
  function WordFrame(rest: Bytes, decoded: nat): (r: Option<Frame>)
    ensures r.Some? && r.value.Last? ==> 0 < r.value.length <= |rest|
    ensures r.Some? && r.value.Chunk? ==> 0 < r.value.size && r.value.start + r.value.size + 2 <= |rest|
  {
    match FirstCrlf(rest)
    case None => Some(Incomplete)
    case Some(eol) =>
      match SizeOf(rest[..eol])
      case None => Some(Bad(BadSize))
      case Some(size) =>
        var data := eol + 2;
        var end := WordSum(data, size);
        var after := WordSum(end, 2);
        if size == 0 then Some(Last(data))
        else if WordSum(decoded, size) > MAX_BODY then Some(Bad(TooLarge))
        else if |rest| < after then Some(Incomplete)
        else if end > after then None
        else if rest[end..after] != CRLF then Some(Bad(BadEnd))
        else if data > end then None
        else
          WordEnds(data, size);
          Some(Chunk(data, size))
  }

  ghost predicate StatesSize(rest: Bytes, size: nat) {
    FirstCrlf(rest).Some? && SizeOf(rest[..FirstCrlf(rest).value]) == Some(size)
  }

  /** The word sums give the exact sums' frame exactly when the stated size and the bytes out fit a word together. */
  lemma {:induction false} WordFrameExactly(rest: Bytes, decoded: nat)
    requires decoded <= MAX_BODY && |rest| <= SLICE_MAX
    ensures WordFrame(rest, decoded) == Some(NextFrame(rest, decoded))
       <==> forall size :: StatesSize(rest, size) ==> decoded + size < USIZE_END
  {
    hide FirstCrlf, SizeOf;
    match FirstCrlf(rest)
    case None =>
    case Some(eol) =>
      match SizeOf(rest[..eol])
      case None =>
      case Some(size) =>
        assert StatesSize(rest, size);
        if decoded + size < USIZE_END {
          WordSumExact(decoded, size);
          if decoded + size <= MAX_BODY {
            WordSumExact(eol + 2, size);
            WordSumExact(eol + 2 + size, 2);
          }
        } else {
          WordSumWraps(decoded, size);
        }
  }

  /** `Feed` with every sum a machine word's; none where the code would stop on a slice out of bounds. */
  function WordFeed(d: Decoder, raw: Bytes): (r: Option<(Decoder, Option<ChunkError>)>)
    ensures r.Some? && d.at <= |raw| ==> d.at <= r.value.0.at <= |raw|
    decreases |Left(d, raw)|
  {
    if d.done then Some((d, None)) else
      var rest := Left(d, raw);
      match WordFrame(rest, |d.out|)
      case None => None
      case Some(Incomplete) => Some((d, None))
      case Some(Bad(e)) => Some((d, Some(e)))
      case Some(Last(length)) => Some((d.(at := d.at + length, done := true), None))
      case Some(Chunk(start, size)) => WordFeed(Taken(d, rest, start, size), raw)
  }

  /** Where the sums do not fit, the exact frame is too large, and no chunk is read by the words either. */
  lemma {:induction false} WrappedFrame(rest: Bytes, decoded: nat)
    requires decoded <= MAX_BODY && |rest| <= SLICE_MAX && WordFrame(rest, decoded) != Some(NextFrame(rest, decoded))
    ensures NextFrame(rest, decoded) == Bad(TooLarge)
    ensures WordFrame(rest, decoded).None? || WordFrame(rest, decoded).value in {Incomplete, Bad(BadEnd)}
  {
    hide FirstCrlf, SizeOf;
    WordFrameExactly(rest, decoded);
    var size: nat :| StatesSize(rest, size) && decoded + size >= USIZE_END;
    var data := FirstCrlf(rest).value + 2;
    WordSumWraps(decoded, size);
    if data + size >= USIZE_END {
      WordSumWraps(data, size);
    }
  }

  /** What is left when the decoder stops states a size that fits a word with the bytes out. */
  ghost predicate StopsWithin(d: Decoder, raw: Bytes) {
    d.done || forall size :: StatesSize(Left(d, raw), size) ==> |d.out| + size < USIZE_END
  }

  /** Decoding with machine words is decoding exactly when the decoder does not stop at a size the words cannot add. */
  lemma {:induction false} WordFeedExactly(d: Decoder, raw: Bytes)
    requires |d.out| <= MAX_BODY && |raw| <= SLICE_MAX
    ensures WordFeed(d, raw) == Some(Feed(d, raw)) <==> StopsWithin(Feed(d, raw).0, raw)
    decreases |Left(d, raw)|
  {
    hide FirstCrlf, SizeOf, NextFrame, WordFrame, StatesSize;
    if !d.done {
      var rest := Left(d, raw);
      WordFrameExactly(rest, |d.out|);
      if WordFrame(rest, |d.out|) != Some(NextFrame(rest, |d.out|)) {
        WrappedFrame(rest, |d.out|);
      } else {
        match NextFrame(rest, |d.out|)
        case Chunk(start, size) => WordFeedExactly(Taken(d, rest, start, size), raw);
        case _ =>
      }
    }
  }

  /** An optimized build is never done with anything else than exact sums are: a size that does not fit ends the decoding. */
  lemma {:induction false} WordFeedDone(d: Decoder, raw: Bytes)
    requires |d.out| <= MAX_BODY && |raw| <= SLICE_MAX
    ensures WordFeed(d, raw).Some? && WordFeed(d, raw).value.0.done ==> WordFeed(d, raw) == Some(Feed(d, raw))
    ensures Feed(d, raw).0.done ==> WordFeed(d, raw) == Some(Feed(d, raw))
    decreases |Left(d, raw)|
  {
    hide FirstCrlf, SizeOf, NextFrame, WordFrame;
    if !d.done {
      var rest := Left(d, raw);
      if WordFrame(rest, |d.out|) != Some(NextFrame(rest, |d.out|)) {
        WrappedFrame(rest, |d.out|);
      } else {
        match NextFrame(rest, |d.out|)
        case Chunk(start, size) => WordFeedDone(Taken(d, rest, start, size), raw);
        case _ =>
      }
    }
  }

  /** A size line whose sum with the bytes out wraps, and is not refused as too large. */
  lemma WordsWrap()
    ensures exists rest: Bytes :: |rest| <= SLICE_MAX && NextFrame(rest, 2) == Bad(TooLarge) && WordFrame(rest, 2) != Some(Bad(TooLarge))
  {
    var size := USIZE_END - 2;
    var line := Hex(size);
    var rest := line + CRLF;
    HexLine(size);
    HexLength(size / 16);
    assert rest[..|line|] == line;
    assert StatesSize(rest, size);
    hide FirstCrlf, SizeOf, Hex;
    WordFrameExactly(rest, 2);
    WrappedFrame(rest, 2);
  }

  lemma WordSumExact(a: nat, b: nat)
    requires a + b < USIZE_END
    ensures WordSum(a, b) == a + b
  {
  }

  lemma WordSumWraps(a: nat, b: nat)
    requires a < USIZE_END && b < USIZE_END <= a + b
    ensures WordSum(a, b) == a + b - USIZE_END
  {
  }

  // ----- resuming -----

  lemma {:induction false} CrlfStable(s: Bytes, x: Bytes)
    requires FirstCrlf(s).Some?
    ensures FirstCrlf(s + x) == FirstCrlf(s)
  {
    assert (s + x)[1..] == s[1..] + x;
    if !(s[0] == CR && s[1] == LF) {
      CrlfStable(s[1..], x);
    }
  }

  /** A frame that has been read, or refused, is the same frame once more has arrived. */
  lemma {:induction false} FrameStable(rest: Bytes, x: Bytes, decoded: nat)
    requires NextFrame(rest, decoded) != Incomplete
    ensures NextFrame(rest + x, decoded) == NextFrame(rest, decoded)
  {
    CrlfStable(rest, x);
    var eol := FirstCrlf(rest).value;
    assert (rest + x)[..eol] == rest[..eol];
    var size := SizeOf(rest[..eol]);
    if size.Some? && eol + 2 + size.value + 2 <= |rest| {
      var end := eol + 2 + size.value;
      assert (rest + x)[end..end + 2] == rest[end..end + 2];
    }
  }

  /** Feeding a prefix first and then the whole is feeding the whole, errors included. */
  lemma {:induction false} FeedResumes(d: Decoder, p: Bytes, x: Bytes)
    requires d.at <= |p|
    ensures Feed(Feed(d, p).0, p + x) == Feed(d, p + x)
    decreases |p| - d.at
  {
    hide FirstCrlf, SizeOf, NextFrame;
    if !d.done {
      var rest := p[d.at..];
      assert Left(d, p + x) == rest + x;
      match NextFrame(rest, |d.out|)
      case Incomplete =>
      case Bad(_) => FrameStable(rest, x, |d.out|);
      case Last(_) => FrameStable(rest, x, |d.out|);
      case Chunk(start, size) =>
        FrameStable(rest, x, |d.out|);
        assert Taken(d, rest + x, start, size) == Taken(d, rest, start, size);
        FeedResumes(Taken(d, rest, start, size), p, x);
    }
  }

  /** An error is final: it comes again however much more arrives. */
  lemma {:induction false} ErrorStays(d: Decoder, p: Bytes, x: Bytes)
    requires d.at <= |p| && (Feed(d, p).1.Some? || Feed(d, p).0.done)
    ensures Feed(d, p + x) == Feed(d, p)
    decreases |p| - d.at
  {
    hide FirstCrlf, SizeOf, NextFrame;
    if !d.done {
      var rest := p[d.at..];
      assert Left(d, p + x) == rest + x;
      FrameStable(rest, x, |d.out|);
      match NextFrame(rest, |d.out|)
      case Chunk(start, size) =>
        assert Taken(d, rest + x, start, size) == Taken(d, rest, start, size);
        ErrorStays(Taken(d, rest, start, size), p, x);
      case _ =>
    }
  }

  /** One feed after each arrival, stopping at the first error. */
  function FeedEach(d: Decoder, raws: seq<Bytes>): (Decoder, Option<ChunkError>)
    decreases |raws|
  {
    if raws == [] then (d, None) else
      var r := Feed(d, raws[0]);
      if r.1.Some? then r else FeedEach(r.0, raws[1..])
  }

  ghost predicate Growing(raws: seq<Bytes>) {
    forall i, j :: 0 <= i <= j < |raws| ==> raws[i] <= raws[j]
  }

  /** However the body arrives, the decoder ends where one feed of the whole ends. */
  lemma {:induction false} FeedEachIsFeed(d: Decoder, raws: seq<Bytes>)
    requires raws != [] && Growing(raws) && d.at <= |raws[0]|
    ensures FeedEach(d, raws) == Feed(d, raws[|raws| - 1])
    decreases |raws|
  {
    var whole := raws[|raws| - 1];
    assert raws[0] <= whole;
    var x := whole[|raws[0]|..];
    assert raws[0] + x == whole;
    var r := Feed(d, raws[0]);
    if r.1.Some? {
      ErrorStays(d, raws[0], x);
    } else if |raws| > 1 {
      assert raws[0] <= raws[1];
      FeedEachIsFeed(r.0, raws[1..]);
      FeedResumes(d, raws[0], x);
    }
  }

  // ----- resuming with machine words -----

  /** A frame that was read or refused, or a slice that was out of bounds, is the same once more has arrived. */
  lemma {:induction false} WordFrameStable(rest: Bytes, x: Bytes, decoded: nat)
    requires WordFrame(rest, decoded) != Some(Incomplete)
    ensures WordFrame(rest + x, decoded) == WordFrame(rest, decoded)
  {
    hide FirstCrlf, SizeOf, WordSum;
    CrlfStable(rest, x);
    var eol := FirstCrlf(rest).value;
    assert (rest + x)[..eol] == rest[..eol];
    var size := SizeOf(rest[..eol]);
    if size.Some? {
      var end := WordSum(eol + 2, size.value);
      var after := WordSum(end, 2);
      if end <= after <= |rest| {
        assert (rest + x)[end..after] == rest[end..after];
      }
    }
  }

  /** Feeding a prefix first, if that does not panic, and then the whole is feeding the whole, errors included. */
  lemma {:induction false} WordFeedResumes(d: Decoder, p: Bytes, x: Bytes)
    requires d.at <= |p| && WordFeed(d, p).Some?
    ensures WordFeed(WordFeed(d, p).value.0, p + x) == WordFeed(d, p + x)
    decreases |p| - d.at
  {
    hide FirstCrlf, SizeOf, WordFrame;
    if !d.done {
      var rest := p[d.at..];
      assert Left(d, p) == rest && Left(d, p + x) == rest + x;
      match WordFrame(rest, |d.out|).value
      case Incomplete =>
      case Bad(_) => WordFrameStable(rest, x, |d.out|);
      case Last(_) => WordFrameStable(rest, x, |d.out|);
      case Chunk(start, size) =>
        WordFrameStable(rest, x, |d.out|);
        assert Taken(d, rest + x, start, size) == Taken(d, rest, start, size);
        WordFeedResumes(Taken(d, rest, start, size), p, x);
    }
  }

  /** A panic, an error or an end. */
  predicate Stopped(r: Option<(Decoder, Option<ChunkError>)>) {
    r.None? || r.value.1.Some? || r.value.0.done
  }

  /** What stopped the decoder stops it again however much more arrives. */
  lemma {:induction false} WordErrorStays(d: Decoder, p: Bytes, x: Bytes)
    requires d.at <= |p| && Stopped(WordFeed(d, p))
    ensures WordFeed(d, p + x) == WordFeed(d, p)
    decreases |p| - d.at
  {
    hide FirstCrlf, SizeOf, WordFrame;
    if !d.done {
      var rest := p[d.at..];
      assert Left(d, p) == rest && Left(d, p + x) == rest + x;
      WordFrameStable(rest, x, |d.out|);
      match WordFrame(rest, |d.out|)
      case Some(Chunk(start, size)) =>
        assert Taken(d, rest + x, start, size) == Taken(d, rest, start, size);
        WordErrorStays(Taken(d, rest, start, size), p, x);
      case _ =>
    }
  }

  /** One feed after each arrival, stopping at the first error or panic. */
  function WordFeedEach(d: Decoder, raws: seq<Bytes>): Option<(Decoder, Option<ChunkError>)>
    decreases |raws|
  {
    if raws == [] then Some((d, None)) else
      var r := WordFeed(d, raws[0]);
      if r.None? || r.value.1.Some? then r else WordFeedEach(r.value.0, raws[1..])
  }

  /** However the body arrives, the decoder ends where one feed of the whole ends. */
  lemma {:induction false} WordFeedEachIsFeed(d: Decoder, raws: seq<Bytes>)
    requires raws != [] && Growing(raws) && d.at <= |raws[0]|
    ensures WordFeedEach(d, raws) == WordFeed(d, raws[|raws| - 1])
    decreases |raws|
  {
    hide WordFeed;
    var whole := raws[|raws| - 1];
    assert raws[0] <= whole;
    var x := whole[|raws[0]|..];
    assert raws[0] + x == whole;
    var r := WordFeed(d, raws[0]);
    if r.None? || r.value.1.Some? {
      WordErrorStays(d, raws[0], x);
    } else if |raws| > 1 {
      assert raws[0] <= raws[1];
      WordFeedEachIsFeed(r.value.0, raws[1..]);
      WordFeedResumes(d, raws[0], x);
    }
  }

  // ----- what is decoded -----

  /** One chunk: its size line and its data. */
  datatype Part = Part(line: Bytes, data: Bytes)

  predicate WellFormed(p: Part) {
    FirstCrlf(p.line + CRLF) == Some(|p.line|) && SizeOf(p.line) == Some(|p.data|) && p.data != []
  }

  function Render(parts: seq<Part>): Bytes {
    if parts == [] then [] else parts[0].line + CRLF + parts[0].data + CRLF + Render(parts[1..])
  }

  function DataOf(parts: seq<Part>): Bytes {
    if parts == [] then [] else parts[0].data + DataOf(parts[1..])
  }

  predicate IsLastLine(line: Bytes) {
    FirstCrlf(line + CRLF) == Some(|line|) && SizeOf(line) == Some(0)
  }

  lemma {:induction false} LineThenMore(line: Bytes, more: Bytes)
    requires FirstCrlf(line + CRLF) == Some(|line|)
    ensures FirstCrlf(line + CRLF + more) == Some(|line|)
    ensures (line + CRLF + more)[..|line|] == line
  {
    CrlfStable(line + CRLF, more);
  }

  /** One well-formed chunk in front is decoded and passed. */
  lemma {:induction false} PartDecodes(p: Part, tail: Bytes, decoded: nat)
    requires WellFormed(p) && decoded + |p.data| <= MAX_BODY
    ensures var rest := p.line + CRLF + p.data + CRLF + tail;
      && NextFrame(rest, decoded) == Chunk(|p.line| + 2, |p.data|)
      && rest[|p.line| + 2..|p.line| + 2 + |p.data|] == p.data
      && rest[|p.line| + 2 + |p.data| + 2..] == tail
  {
    var rest := p.line + CRLF + p.data + CRLF + tail;
    assert rest == p.line + CRLF + (p.data + CRLF + tail);
    LineThenMore(p.line, p.data + CRLF + tail);
    var end := |p.line| + 2 + |p.data|;
    assert rest[end..end + 2] == CRLF;
  }

  /** Complete: a well-formed body decodes to its chunks' data, wherever it stands. */
  lemma {:induction false} WellFormedDecodes(before: Bytes, out: Bytes, parts: seq<Part>, last: Bytes, after: Bytes)
    requires forall i :: 0 <= i < |parts| ==> WellFormed(parts[i])
    requires IsLastLine(last) && |out| + |DataOf(parts)| <= MAX_BODY
    ensures var body := Render(parts) + last + CRLF;
      Feed(Decoder(out, |before|, false), before + body + after)
      == (Decoder(out + DataOf(parts), |before| + |body|, true), None)
    decreases |parts|
  {
    hide FirstCrlf, SizeOf, NextFrame, Feed, WellFormed, IsLastLine, Render, DataOf;
    if parts == [] {
      NoParts(last, after, out);
      DropBefore(before, last + CRLF + after, last + CRLF, after);
      LastFeeds(Decoder(out, |before|, false), before + (last + CRLF) + after, last, after);
    } else {
      var p := parts[0];
      var rest := Render(parts[1..]) + last + CRLF;
      var front := p.line + CRLF + p.data + CRLF;
      BodySplits(parts, last, out);
      Regroup(before, front, rest, after);
      DropBefore(before, front + rest + after, front + rest, after);
      StepsPast(Decoder(out, |before|, false), before + (front + rest) + after, p, rest + after);
      WellFormedDecodes(before + front, out + p.data, parts[1..], last, after);
    }
  }

  lemma NoParts(last: Bytes, after: Bytes, out: Bytes)
    ensures Render([]) + last + CRLF == last + CRLF
    ensures out + DataOf([]) == out
  {
  }

  lemma DropBefore(before: Bytes, tail: Bytes, body: Bytes, after: Bytes)
    requires body + after == tail
    ensures (before + body + after)[|before|..] == tail
  {
    assert before + body + after == before + (body + after);
  }

  /** Feeding the zero-size line ends the body. */
  lemma {:induction false} LastFeeds(d: Decoder, raw: Bytes, last: Bytes, after: Bytes)
    requires !d.done && d.at <= |raw| && raw[d.at..] == last + CRLF + after && IsLastLine(last)
    ensures Feed(d, raw) == (Decoder(d.out, d.at + |last| + 2, true), None)
  {
    LastDecodes(last, after, |d.out|);
    hide FirstCrlf, SizeOf, NextFrame, IsLastLine;
    assert Left(d, raw) == raw[d.at..];
  }

  lemma BodySplits(parts: seq<Part>, last: Bytes, out: Bytes)
    requires parts != []
    ensures Render(parts) + last + CRLF
         == (parts[0].line + CRLF + parts[0].data + CRLF) + (Render(parts[1..]) + last + CRLF)
    ensures out + DataOf(parts) == (out + parts[0].data) + DataOf(parts[1..])
    ensures |DataOf(parts)| == |parts[0].data| + |DataOf(parts[1..])|
  {
  }

  lemma Regroup(a: Bytes, b: Bytes, c: Bytes, d: Bytes)
    ensures a + (b + c) + d == (a + b) + c + d
    ensures (b + c) + d == b + (c + d)
    ensures |(a + b) + c| == |a + (b + c)|
  {
  }

  /** Feeding past one well-formed chunk. */
  lemma {:induction false} StepsPast(d: Decoder, raw: Bytes, p: Part, tail: Bytes)
    requires !d.done && d.at <= |raw| && raw[d.at..] == p.line + CRLF + p.data + CRLF + tail
    requires WellFormed(p) && |d.out| + |p.data| <= MAX_BODY
    ensures Feed(d, raw) == Feed(Decoder(d.out + p.data, d.at + |p.line + CRLF + p.data + CRLF|, false), raw)
  {
    PartDecodes(p, tail, |d.out|);
    hide FirstCrlf, SizeOf, NextFrame, WellFormed;
    var rest := raw[d.at..];
    assert Left(d, raw) == rest;
    assert Taken(d, rest, |p.line| + 2, |p.data|) == Decoder(d.out + p.data, d.at + |p.line + CRLF + p.data + CRLF|, false);
  }

  lemma {:induction false} LastDecodes(last: Bytes, after: Bytes, decoded: nat)
    requires IsLastLine(last)
    ensures NextFrame(last + CRLF + after, decoded) == Last(|last| + 2)
  {
    LineThenMore(last, after);
  }

  /** `body` is what chunks look like, and their end if `done`; `out` is their data. */
  ghost predicate Chunking(parts: seq<Part>, last: Bytes, done: bool, body: Bytes, out: Bytes) {
    && (forall i :: 0 <= i < |parts| ==> WellFormed(parts[i])) && (done ==> IsLastLine(last))
    && body == Render(parts) + (if done then last + CRLF else []) && out == DataOf(parts)
  }

  /** Sound: what was decoded is the data of well-formed chunks that were really there. */
  lemma {:induction false} DecodedWasWellFormed(d: Decoder, raw: Bytes)
      returns (parts: seq<Part>, last: Bytes, out: Bytes)
    requires d.at <= |raw| && !d.done
    ensures Chunking(parts, last, Feed(d, raw).0.done, raw[d.at..Feed(d, raw).0.at], out)
    ensures Feed(d, raw).0.out == d.out + out
    decreases |raw| - d.at
  {
    hide FirstCrlf, SizeOf, NextFrame, WellFormed, IsLastLine, Chunking, Render, DataOf, Feed;
    var rest := raw[d.at..];
    var f := NextFrame(rest, |d.out|);
    if f.Chunk? {
      FeedChunk(d, raw);
      PartWas(rest, |d.out|);
      var p := Part(rest[..f.start - 2], rest[f.start..f.start + f.size]);
      var later, end, more := DecodedWasWellFormed(Taken(d, rest, f.start, f.size), raw);
      parts, last, out := [p] + later, end, p.data + more;
      ChunkInFront(raw, d.at, f.start + f.size + 2, Feed(d, raw).0, p, later, end, more);
      Joined(d.out, p.data, more);
    } else {
      NoChunkRead(d, raw);
      parts, last, out := [], if f.Last? then rest[..f.length - 2] else [], [];
    }
  }

  /** No further chunk: either the last line was read, or nothing was. */
  lemma NoChunkRead(d: Decoder, raw: Bytes)
    requires d.at <= |raw| && !d.done && !NextFrame(raw[d.at..], |d.out|).Chunk?
    ensures var f := NextFrame(raw[d.at..], |d.out|);
      && (f.Last? ==> f.length >= 2)
      && Chunking([], if f.Last? then raw[d.at..][..f.length - 2] else [], Feed(d, raw).0.done, raw[d.at..Feed(d, raw).0.at], [])
      && Feed(d, raw).0.out == d.out + []
  {
    hide FirstCrlf, SizeOf, NextFrame, WellFormed, IsLastLine, Chunking, Render, DataOf;
    var rest := raw[d.at..];
    assert Left(d, raw) == rest && d.out + [] == d.out;
    var f := NextFrame(rest, |d.out|);
    if f.Last? {
      LastWas(rest, |d.out|);
      assert raw[d.at..d.at + f.length] == rest[..f.length];
    } else {
      assert raw[d.at..d.at] == [];
      Nothing();
    }
  }

  lemma ChunkInFront(raw: Bytes, at: nat, length: nat, end: Decoder, p: Part, parts: seq<Part>, last: Bytes, out: Bytes)
    requires at + length <= end.at <= |raw| && WellFormed(p)
    requires raw[at..][..length] == p.line + CRLF + p.data + CRLF
    requires Chunking(parts, last, end.done, raw[at + length..end.at], out)
    ensures Chunking([p] + parts, last, end.done, raw[at..end.at], p.data + out)
  {
    hide WellFormed, Chunking;
    assert raw[at..][..length] == raw[at..at + length];
    assert raw[at..end.at] == raw[at..at + length] + raw[at + length..end.at];
    PartInFront(p, parts, last, end.done, raw[at + length..end.at], out);
  }

  lemma FeedChunk(d: Decoder, raw: Bytes)
    requires d.at <= |raw| && !d.done && NextFrame(raw[d.at..], |d.out|).Chunk?
    ensures var f := NextFrame(raw[d.at..], |d.out|);
      Feed(d, raw) == Feed(Taken(d, raw[d.at..], f.start, f.size), raw)
  {
    hide NextFrame;
    assert Left(d, raw) == raw[d.at..];
  }

  lemma Joined(a: Bytes, b: Bytes, c: Bytes)
    ensures (a + b) + c == a + (b + c)
  {
  }

  lemma Nothing()
    ensures Chunking([], [], false, [], [])
  {
  }

  lemma PartInFront(p: Part, parts: seq<Part>, last: Bytes, done: bool, body: Bytes, out: Bytes)
    requires WellFormed(p) && Chunking(parts, last, done, body, out)
    ensures Chunking([p] + parts, last, done, (p.line + CRLF + p.data + CRLF) + body, p.data + out)
  {
    hide WellFormed, IsLastLine;
    assert ([p] + parts)[1..] == parts;
  }

  /** The frame read was a line and its end. */
  lemma {:induction false} LastWas(rest: Bytes, decoded: nat)
    requires NextFrame(rest, decoded).Last?
    ensures var length := NextFrame(rest, decoded).length;
      length >= 2 && Chunking([], rest[..length - 2], true, rest[..length], [])
  {
    LineIsLine(rest, NextFrame(rest, decoded).length - 2);
  }

  lemma {:induction false} PartWas(rest: Bytes, decoded: nat)
    requires NextFrame(rest, decoded).Chunk?
    ensures var f := NextFrame(rest, decoded);
      && f.start >= 2 && WellFormed(Part(rest[..f.start - 2], rest[f.start..f.start + f.size]))
      && rest[..f.start + f.size + 2] == rest[..f.start - 2] + CRLF + rest[f.start..f.start + f.size] + CRLF
  {
    var f := NextFrame(rest, decoded);
    LineIsLine(rest, f.start - 2);
    var end := f.start + f.size;
    assert rest[..end + 2] == rest[..f.start] + rest[f.start..end] + rest[end..end + 2];
  }

  lemma {:induction false} LineIsLine(rest: Bytes, eol: nat)
    requires FirstCrlf(rest) == Some(eol)
    ensures rest[..eol + 2] == rest[..eol] + CRLF
    ensures FirstCrlf(rest[..eol] + CRLF) == Some(eol)
  {
    assert rest[..eol + 2] == rest[..eol] + rest[eol..eol + 2];
    CrlfCut(rest, eol);
  }

  lemma {:induction false} CrlfCut(rest: Bytes, eol: nat)
    requires FirstCrlf(rest) == Some(eol)
    ensures FirstCrlf(rest[..eol + 2]) == Some(eol)
  {
    if eol > 0 {
      CrlfCut(rest[1..], eol - 1);
      assert rest[..eol + 2][1..] == rest[1..][..eol + 1];
    }
  }

  /** `body` is well-formed chunks, then a zero-size line; `out` is their data. */
  ghost predicate IsChunked(body: Bytes, out: Bytes) {
    exists parts, last :: Chunking(parts, last, true, body, out)
  }

  lemma FeedBounds(raw: Bytes)
    ensures 0 <= Feed(Start, raw).0.at <= |raw| && |Feed(Start, raw).0.out| <= MAX_BODY
  {
  }

  lemma {:induction false} DoneIsChunked(raw: Bytes)
    requires Feed(Start, raw).0.done
    ensures IsChunked(raw[..Feed(Start, raw).0.at], Feed(Start, raw).0.out)
  {
    hide Feed, Chunking;
    FeedBounds(raw);
    var parts, last, out := DecodedWasWellFormed(Start, raw);
    var at := Feed(Start, raw).0.at;
    assert raw[0..at] == raw[..at];
    assert [] + out == out;
    assert Chunking(parts, last, true, raw[..at], out);
  }

  lemma {:induction false} ChunkedIsDone(raw: Bytes, at: nat, out: Bytes)
    requires |out| <= MAX_BODY && at <= |raw| && IsChunked(raw[..at], out)
    ensures Feed(Start, raw) == (Decoder(out, at, true), None)
  {
    hide Feed, Render, DataOf, WellFormed, IsLastLine;
    var parts, last :| Chunking(parts, last, true, raw[..at], out);
    assert Render(parts) + last + CRLF == Render(parts) + (last + CRLF);
    WellFormedDecodes([], [], parts, last, raw[at..]);
    assert [] + raw[..at] + raw[at..] == raw;
    assert [] + DataOf(parts) == DataOf(parts);
  }

  /** The decoder is done with `out` exactly when the body starts with a chunking of `out` within the cap. */
  lemma {:induction false} DoneExactly(raw: Bytes, out: Bytes, at: nat)
    ensures Feed(Start, raw) == (Decoder(out, at, true), None)
       <==> (|out| <= MAX_BODY && at <= |raw| && IsChunked(raw[..at], out))
  {
    hide Feed, IsChunked;
    if Feed(Start, raw) == (Decoder(out, at, true), None) {
      FeedBounds(raw);
      DoneIsChunked(raw);
    }
    if |out| <= MAX_BODY && at <= |raw| && IsChunked(raw[..at], out) {
      ChunkedIsDone(raw, at, out);
    }
  }

  /** Nor is a decoder that adds machine words ever done with anything else. */
  lemma {:induction false} WordDoneExactly(raw: Bytes, out: Bytes, at: nat)
    requires |raw| <= SLICE_MAX
    ensures WordFeed(Start, raw) == Some((Decoder(out, at, true), None))
       <==> (|out| <= MAX_BODY && at <= |raw| && IsChunked(raw[..at], out))
  {
    DoneExactly(raw, out, at);
    WordFeedDone(Start, raw);
    hide Feed, WordFeed, IsChunked;
  }

  // ----- the chunked encoding -----

  function HexChar(n: nat): byte
    requires n < 16
  {
    if n < 10 then 48 + n else 87 + n
  }

  function Hex(n: nat): (s: Bytes)
    ensures s != []
  {
    (if n < 16 then [] else Hex(n / 16)) + [HexChar(n % 16)]
  }

  function EncodeParts(chunks: seq<Bytes>): seq<Part> {
    if chunks == [] then [] else [Part(Hex(|chunks[0]|), chunks[0])] + EncodeParts(chunks[1..])
  }

  /** The chunks as a server sends them, and the chunk that ends them. */
  function Encode(chunks: seq<Bytes>): Bytes {
    Render(EncodeParts(chunks)) + Hex(0) + CRLF
  }

  predicate HexOnly(s: Bytes) {
    forall i :: 0 <= i < |s| ==> HexDigit(s[i]).Some?
  }

  lemma {:induction false} HexReads(n: nat)
    ensures HexValue(Hex(n)) == Some(n) && HexOnly(Hex(n))
  {
    var s := Hex(n);
    if n >= 16 {
      HexReads(n / 16);
      assert s[..|s| - 1] == Hex(n / 16);
    } else {
      assert s[..|s| - 1] == [];
    }
  }

  lemma {:induction false} HexLength(n: nat)
    ensures |Hex(n)| <= n + 1
  {
    if n >= 16 {
      HexLength(n / 16);
    }
  }

  lemma {:induction false} NoSemicolon(s: Bytes)
    requires HexOnly(s)
    ensures BeforeSemicolon(s) == s
  {
    if s != [] {
      assert HexDigit(s[0]).Some?;
      assert HexOnly(s[1..]);
      NoSemicolon(s[1..]);
    }
  }

  lemma {:induction false} HexLineEnds(s: Bytes)
    requires HexOnly(s)
    ensures FirstCrlf(s + CRLF) == Some(|s|)
  {
    if s != [] {
      assert HexDigit(s[0]).Some?;
      assert HexOnly(s[1..]);
      assert (s + CRLF)[1..] == s[1..] + CRLF;
      HexLineEnds(s[1..]);
    } else {
      assert s + CRLF == CRLF;
    }
  }

  lemma {:induction false} HexLine(n: nat)
    requires n < USIZE_END
    ensures SizeOf(Hex(n)) == Some(n) && FirstCrlf(Hex(n) + CRLF) == Some(|Hex(n)|)
  {
    var s := Hex(n);
    HexReads(n);
    NoSemicolon(s);
    HexLineEnds(s);
    HexUntrimmed(s);
    assert s[0] != 43 by {
      assert HexDigit(s[0]).Some?;
    }
    hide FirstCrlf, TrimStart, TrimEnd, BeforeSemicolon, HexValue, Hex;
  }

  lemma HexUntrimmed(s: Bytes)
    requires HexOnly(s) && s != []
    ensures TrimStart(s) == s && TrimEnd(s) == s
  {
    assert HexDigit(s[0]).Some? && HexDigit(s[|s| - 1]).Some?;
    assert SpaceAtStart(s) == 0 && SpaceAtEnd(s) == 0;
  }

  lemma {:induction false} EncodedWellFormed(chunks: seq<Bytes>)
    requires forall i :: 0 <= i < |chunks| ==> chunks[i] != [] && |chunks[i]| < USIZE_END
    ensures forall i :: 0 <= i < |EncodeParts(chunks)| ==> WellFormed(EncodeParts(chunks)[i])
    ensures DataOf(EncodeParts(chunks)) == Concat(chunks)
  {
    if chunks != [] {
      HexLine(|chunks[0]|);
      EncodedWellFormed(chunks[1..]);
      assert EncodeParts(chunks)[1..] == EncodeParts(chunks[1..]);
    }
  }

  lemma {:induction false} ChunkFits(chunks: seq<Bytes>, i: nat)
    requires i < |chunks|
    ensures |chunks[i]| <= |Concat(chunks)|
  {
    if i > 0 {
      ChunkFits(chunks[1..], i - 1);
    }
  }

  /** Any non-empty chunks within the cap come back whole, and what follows them is left alone. */
  lemma {:induction false} EncodeDecodes(chunks: seq<Bytes>, after: Bytes)
    requires forall i :: 0 <= i < |chunks| ==> chunks[i] != []
    requires |Concat(chunks)| <= MAX_BODY
    ensures Feed(Start, Encode(chunks) + after) == (Decoder(Concat(chunks), |Encode(chunks)|, true), None)
  {
    forall i | 0 <= i < |chunks|
      ensures |chunks[i]| < USIZE_END
    {
      ChunkFits(chunks, i);
    }
    EncodedWellFormed(chunks);
    HexLine(0);
    var parts := EncodeParts(chunks);
    EncodedLast();
    hide Feed, FirstCrlf, SizeOf, NextFrame, Render, EncodeParts, Hex, WellFormed, IsLastLine, DataOf, Concat;
    WellFormedDecodes([], [], parts, Hex(0), after);
    Empties(Encode(chunks), after, Concat(chunks));
  }

  lemma EncodedLast()
    ensures IsLastLine(Hex(0))
  {
    HexLine(0);
  }

  lemma Empties(body: Bytes, after: Bytes, out: Bytes)
    ensures [] + body + after == body + after && [] + out == out
  {
  }

  /** An encoding is longer than its chunks, but not by much. */
  lemma {:induction false} EncodedLength(chunks: seq<Bytes>)
    requires forall i :: 0 <= i < |chunks| ==> chunks[i] != []
    ensures |Render(EncodeParts(chunks))| <= 7 * |Concat(chunks)|
  {
    if chunks != [] {
      HexLength(|chunks[0]|);
      assert chunks[0] != [];
      EncodedLength(chunks[1..]);
      assert EncodeParts(chunks)[1..] == EncodeParts(chunks[1..]);
      hide Hex, HexChar;
    }
  }

  /** Chunks within the cap come back whole from machine words too, whatever follows. */
  lemma {:induction false} WordEncodeDecodes(chunks: seq<Bytes>, after: Bytes)
    requires forall i :: 0 <= i < |chunks| ==> chunks[i] != []
    requires |Concat(chunks)| <= MAX_BODY
    ensures WordFeed(Start, Encode(chunks) + after) == Some((Decoder(Concat(chunks), |Encode(chunks)|, true), None))
  {
    EncodedLength(chunks);
    HexLength(0);
    EncodeDecodes(chunks, []);
    hide Feed, WordFeed, Render, EncodeParts, Hex, Concat;
    var body := Encode(chunks);
    assert body + [] == body;
    WordFeedDone(Start, body);
    WordErrorStays(Start, body, after);
  }

  /** How machine words end where the decoder stops at a size they cannot add: it is too large, and not refused as that. */
  lemma {:induction false} WordFeedWraps(d: Decoder, raw: Bytes)
    requires |d.out| <= MAX_BODY && |raw| <= SLICE_MAX && !StopsWithin(Feed(d, raw).0, raw)
    ensures Feed(d, raw).1 == Some(TooLarge)
    ensures var r := WordFeed(d, raw);
      r.None? || (r.value.0 == Feed(d, raw).0 && r.value.1 in {None, Some(BadEnd)})
    decreases |Left(d, raw)|
  {
    hide FirstCrlf, SizeOf, NextFrame, WordFrame, StatesSize;
    if !d.done {
      var rest := Left(d, raw);
      WordFrameExactly(rest, |d.out|);
      if WordFrame(rest, |d.out|) != Some(NextFrame(rest, |d.out|)) {
        WrappedFrame(rest, |d.out|);
      } else {
        match NextFrame(rest, |d.out|)
        case Chunk(start, size) => WordFeedWraps(Taken(d, rest, start, size), raw);
        case _ =>
      }
    }
  }

  // ----- which error -----

  /** Where the first CRLF is, and that there is none before it. */
  lemma {:induction false} CrlfExactly(s: Bytes)
    ensures FirstCrlf(s).None? <==> forall i :: 0 <= i < |s| - 1 ==> !(s[i] == 13 && s[i + 1] == 10)
    ensures FirstCrlf(s).Some? ==> forall i :: 0 <= i < FirstCrlf(s).value ==> !(s[i] == 13 && s[i + 1] == 10)
  {
    if |s| >= 2 && !(s[0] == 13 && s[1] == 10) {
      CrlfExactly(s[1..]);
      forall i | 0 <= i < |s| - 1 && s[i] == 13 && s[i + 1] == 10
        ensures FirstCrlf(s).Some? && FirstCrlf(s).value <= i
      {
        assert s[1..][i - 1] == 13 && s[1..][i] == 10;
      }
    }
  }

  /** Which refusal a frame gets: a size that is no number, one over the cap, or a chunk not followed by CRLF; else it is waited for, or read. */
  lemma {:induction false} RefusedExactly(rest: Bytes, decoded: nat)
    ensures var f := NextFrame(rest, decoded);
      && (f == Bad(BadSize) <==> FirstCrlf(rest).Some? && SizeOf(rest[..FirstCrlf(rest).value]).None?)
      && (f == Bad(TooLarge) <==> exists n :: StatesSize(rest, n) && n > 0 && decoded + n > 16 * 1024 * 1024)
      && (f == Bad(BadEnd) <==> exists n :: StatesSize(rest, n) && Whole(rest, decoded, n) && !Closes(rest, n))
      && (f.Chunk? <==> exists n :: StatesSize(rest, n) && Whole(rest, decoded, n) && Closes(rest, n))
      && (f.Last? <==> StatesSize(rest, 0))
  {
    hide FirstCrlf, SizeOf;
    if FirstCrlf(rest).Some? && SizeOf(rest[..FirstCrlf(rest).value]).Some? {
      var n := SizeOf(rest[..FirstCrlf(rest).value]).value;
      assert StatesSize(rest, n) && forall m :: StatesSize(rest, m) ==> m == n;
    }
  }

  /** The chunk its size line states is there, and what should end it. */
  ghost predicate Whole(rest: Bytes, decoded: nat, n: nat) {
    0 < n && decoded + n <= 16 * 1024 * 1024 && FirstCrlf(rest).Some? && |rest| >= FirstCrlf(rest).value + 2 + n + 2
  }

  ghost predicate Closes(rest: Bytes, n: nat) {
    FirstCrlf(rest).Some? && var end := FirstCrlf(rest).value + 2 + n;
    end + 2 <= |rest| && rest[end] == 13 && rest[end + 1] == 10
  }
}
