/** Which numbers the texts on the wire name: trimmed, signed, with leading zeros. */
module WireNumbers {
  import opened Prelude
  import opened Dechunker
  import Utf16

  // ----- white space -----

  /** Unicode's White_Space. */
  predicate IsWhite(v: int) {
    9 <= v <= 13 || v == 0x20 || v == 0x85 || v == 0xA0 || v == 0x1680 || 0x2000 <= v <= 0x200A
    || v == 0x2028 || v == 0x2029 || v == 0x202F || v == 0x205F || v == 0x3000
  }

  predicate AllWhite(vs: seq<int>) {
    forall i :: 0 <= i < |vs| ==> IsWhite(vs[i])
  }

  /** Some white space in UTF-8. */
  function White(vs: seq<int>): Bytes
    requires AllWhite(vs)
  {
    if vs == [] then [] else
      WhiteBytes(vs[0]);
      Utf16.Utf8(vs[0]) + White(vs[1..])
  }

  /** White space and nothing else. */
  ghost predicate Blank(s: Bytes) {
    exists vs: seq<int> :: AllWhite(vs) && s == White(vs)
  }

  lemma WhiteBytes(v: int)
    requires IsWhite(v)
    ensures Utf16.IsScalar(v)
    ensures WhiteChar(Utf16.Utf8(v))
  {
  }

  lemma BytesWhite(s: Bytes) returns (v: int)
    requires WhiteChar(s)
    ensures IsWhite(v) && Utf16.IsScalar(v) && Utf16.Utf8(v) == s
  {
    if |s| == 1 {
      v := s[0] as int;
    } else if |s| == 2 {
      v := s[1] as int;
    } else {
      v := (s[0] as int - 0xE0) * 0x1000 + (s[1] as int - 0x80) * 0x40 + (s[2] as int - 0x80);
    }
  }

  /** The bytes of one white space character. */
  predicate WhiteChar(s: Bytes) {
    || (|s| == 1 && (9 <= s[0] <= 13 || s[0] == 32))
    || (|s| == 2 && s[0] == 0xC2 && (s[1] == 0x85 || s[1] == 0xA0))
    || (|s| == 3 && IsWideSpace(s[0], s[1], s[2]))
  }

  lemma SpaceIsWhite(s: Bytes)
    ensures SpaceAtStart(s) > 0 ==> WhiteChar(s[..SpaceAtStart(s)]) && TrimStart(s) == TrimStart(s[SpaceAtStart(s)..])
    ensures SpaceAtStart(s) == 0 ==> TrimStart(s) == s
    ensures SpaceAtEnd(s) > 0 ==> WhiteChar(s[|s| - SpaceAtEnd(s)..]) && TrimEnd(s) == TrimEnd(s[..|s| - SpaceAtEnd(s)])
    ensures SpaceAtEnd(s) == 0 ==> TrimEnd(s) == s
  {
  }

  lemma WhiteMore(v: int, vs: seq<int>)
    requires AllWhite(vs) && IsWhite(v)
    ensures Utf16.IsScalar(v) && AllWhite([v] + vs) && AllWhite(vs + [v])
    ensures White([v] + vs) == Utf16.Utf8(v) + White(vs)
    ensures White(vs + [v]) == White(vs) + Utf16.Utf8(v)
  {
    assert ([v] + vs)[1..] == vs;
    WhiteLast(vs, v);
  }

  lemma NoWhite()
    ensures AllWhite([]) && White([]) == []
  {
  }

  /** Trimming at the start takes white space, and all of it. */
  lemma {:induction false} StartTrimmed(s: Bytes) returns (vs: seq<int>)
    ensures AllWhite(vs) && s == White(vs) + TrimStart(s) && SpaceAtStart(TrimStart(s)) == 0
  {
    hide IsWhite, Utf16.Utf8, SpaceAtEnd, TrimEnd, WhiteChar, TrimStart, SpaceAtStart, AllWhite, White;
    var n := SpaceAtStart(s);
    SpaceIsWhite(s);
    if n == 0 {
      vs := [];
      NoWhite();
      assert White(vs) + s == s;
    } else {
      var v := BytesWhite(s[..n]);
      var rest := StartTrimmed(s[n..]);
      WhiteMore(v, rest);
      vs := [v] + rest;
      assert s == s[..n] + s[n..];
      assert s == s[..n] + (White(rest) + TrimStart(s[n..])) == (s[..n] + White(rest)) + TrimStart(s[n..]);
    }
  }

  lemma {:induction false} WhiteLast(vs: seq<int>, v: int)
    requires AllWhite(vs) && IsWhite(v)
    ensures Utf16.IsScalar(v) && AllWhite(vs + [v]) && White(vs + [v]) == White(vs) + Utf16.Utf8(v)
  {
    WhiteBytes(v);
    if vs == [] {
      assert [v][1..] == [] && [] + [v] == [v];
      assert Utf16.Utf8(v) + [] == Utf16.Utf8(v) && [] + Utf16.Utf8(v) == Utf16.Utf8(v);
    } else {
      WhiteBytes(vs[0]);
      assert (vs + [v])[1..] == vs[1..] + [v];
      WhiteLast(vs[1..], v);
      assert Utf16.Utf8(vs[0]) + (White(vs[1..]) + Utf16.Utf8(v)) == White(vs) + Utf16.Utf8(v);
    }
  }

  lemma {:induction false} EndTrimmed(s: Bytes) returns (vs: seq<int>)
    ensures AllWhite(vs) && s == TrimEnd(s) + White(vs) && SpaceAtEnd(TrimEnd(s)) == 0
  {
    hide IsWhite, Utf16.Utf8, SpaceAtStart, TrimStart, WhiteChar, TrimEnd, SpaceAtEnd, AllWhite, White;
    var n := SpaceAtEnd(s);
    SpaceIsWhite(s);
    if n == 0 {
      vs := [];
      NoWhite();
      assert s + White(vs) == s;
    } else {
      var v := BytesWhite(s[|s| - n..]);
      var rest := EndTrimmed(s[..|s| - n]);
      WhiteMore(v, rest);
      vs := rest + [v];
      assert s == s[..|s| - n] + s[|s| - n..];
      var t := TrimEnd(s[..|s| - n]);
      assert s == (t + White(rest)) + s[|s| - n..] == t + (White(rest) + s[|s| - n..]);
    }
  }

  /** And trimming takes any white space that is there, before what starts with none. */
  lemma {:induction false} StartIsTrimmed(vs: seq<int>, t: Bytes)
    requires AllWhite(vs) && SpaceAtStart(t) == 0
    ensures TrimStart(White(vs) + t) == t
  {
    if vs == [] {
      assert White(vs) + t == t;
    } else {
      WhiteBytes(vs[0]);
      var c := Utf16.Utf8(vs[0]);
      var s := White(vs) + t;
      assert s == c + (White(vs[1..]) + t);
      assert SpaceAtStart(s) == |c|;
      assert s[|c|..] == White(vs[1..]) + t;
      StartIsTrimmed(vs[1..], t);
    }
  }

  lemma {:induction false} EndIsTrimmed(t: Bytes, vs: seq<int>)
    requires AllWhite(vs) && SpaceAtEnd(t) == 0
    ensures TrimEnd(t + White(vs)) == t
    decreases |vs|
  {
    if vs == [] {
      assert t + White(vs) == t;
    } else {
      var front, v := vs[..|vs| - 1], vs[|vs| - 1];
      assert vs == front + [v];
      WhiteBytes(v);
      WhiteLast(front, v);
      var c := Utf16.Utf8(v);
      var s := t + White(vs);
      assert s == (t + White(front)) + c;
      hide White;
      EndsWith(t + White(front), c);
      assert s[..|s| - |c|] == t + White(front);
      EndIsTrimmed(t, front);
    }
  }

  lemma EndsWith(s: Bytes, c: Bytes)
    requires WhiteChar(c)
    ensures SpaceAtEnd(s + c) == |c|
  {
  }

  /** ASCII at both ends, and no white space there. */
  predicate Tight(t: Bytes) {
    t != [] && 33 <= t[0] < 127 && 33 <= t[|t| - 1] < 127
  }

  /** The trimmed text: what stands between white space. */
  ghost predicate Trimmed(s: Bytes, t: Bytes) {
    exists a, b :: Blank(a) && Blank(b) && s == a + t + b
  }

  lemma TightEnds(t: Bytes, b: Bytes)
    requires Tight(t)
    ensures SpaceAtStart(t + b) == 0 && SpaceAtEnd(t) == 0
  {
  }

  lemma {:induction false} TrimIs(s: Bytes, t: Bytes)
    requires Tight(t)
    ensures TrimEnd(TrimStart(s)) == t <==> Trimmed(s, t)
  {
    hide TrimStart, TrimEnd, White, AllWhite;
    if Trimmed(s, t) {
      var a, b :| Blank(a) && Blank(b) && s == a + t + b;
      var va :| AllWhite(va) && a == White(va);
      var vb :| AllWhite(vb) && b == White(vb);
      assert a + t + b == a + (t + b);
      TightEnds(t, b);
      StartIsTrimmed(va, t + b);
      EndIsTrimmed(t, vb);
    }
    if TrimEnd(TrimStart(s)) == t {
      var va := StartTrimmed(s);
      var vb := EndTrimmed(TrimStart(s));
      var a, b := White(va), White(vb);
      assert Blank(a) && Blank(b);
      assert s == a + (t + b) == a + t + b;
    }
  }

  // ----- hexadecimal -----

  function Zeros(k: nat): (s: Bytes)
    ensures |s| == k && forall i :: 0 <= i < k ==> s[i] == 48
  {
    seq(k, i => 48)
  }

  function Lowered(s: Bytes): (r: Bytes)
    ensures |r| == |s|
  {
    seq(|s|, i requires 0 <= i < |s| => if 65 <= s[i] <= 70 then s[i] + 32 else s[i])
  }

  /** Leading zeros, then the number as it is printed in hexadecimal, in either case. */
  ghost predicate NamesHex(s: Bytes, n: nat) {
    exists k: nat :: Lowered(s) == Zeros(k) + Hex(n)
  }

  lemma ZerosMore(k: nat)
    ensures Zeros(k) + [48] == Zeros(k + 1)
  {
  }

  lemma {:induction false} HexStep(n: nat, d: nat)
    requires d < 16
    ensures Hex(16 * n + d) == (if n == 0 then [] else Hex(n)) + [HexChar(d)]
  {
    assert (16 * n + d) / 16 == n && (16 * n + d) % 16 == d;
  }

  lemma LoweredLast(s: Bytes)
    requires s != []
    ensures Lowered(s) == Lowered(s[..|s| - 1]) + [if 65 <= s[|s| - 1] <= 70 then s[|s| - 1] + 32 else s[|s| - 1]]
  {
  }

  lemma HexDigitIs(b: byte, d: nat)
    requires d < 16
    ensures HexDigit(b) == Some(d) <==> (if 65 <= b <= 70 then b + 32 else b) == HexChar(d)
  {
  }

  lemma {:induction false} HexNames(s: Bytes, n: nat)
    requires s != []
    ensures HexValue(s) == Some(n) ==> NamesHex(s, n)
  {
    hide Hex, HexChar, HexDigit, Lowered, NamesHex;
    if HexValue(s) == Some(n) {
      var front, d := s[..|s| - 1], HexDigit(s[|s| - 1]).value;
      var v := HexValue(front).value;
      HexDigitFits(s[|s| - 1]);
      assert n == 16 * v + d;
      if front == [] {
        assert s == [s[0]];
        DigitNamed(s[0], d);
      } else {
        HexNames(front, v);
        DigitAdded(front, v, s[|s| - 1], d);
        assert front + [s[|s| - 1]] == s;
      }
    }
  }

  lemma HexDigitFits(b: byte)
    ensures HexDigit(b).Some? ==> HexDigit(b).value < 16
  {
  }

  lemma DigitNamed(b: byte, d: nat)
    requires d < 16 && HexDigit(b) == Some(d)
    ensures NamesHex([b], d)
  {
    HexDigitIs(b, d);
    HexStep(0, d);
    hide Hex, HexChar, HexDigit;
    assert Lowered([b]) == Zeros(0) + Hex(d);
  }

  /** One digit more after a number that is named. */
  lemma DigitAdded(s: Bytes, v: nat, b: byte, d: nat)
    requires NamesHex(s, v) && d < 16 && HexDigit(b) == Some(d)
    ensures NamesHex(s + [b], 16 * v + d)
  {
    hide Hex, HexChar, HexDigit, Lowered, Zeros;
    HexDigitIs(b, d);
    HexStep(v, d);
    HexZero();
    LoweredMore(s, b);
    var k: nat :| Lowered(s) == Zeros(k) + Hex(v);
    ZerosMore(k);
    if v == 0 {
      assert Lowered(s + [b]) == Zeros(k + 1) + Hex(d);
    } else {
      assert (Zeros(k) + Hex(v)) + [HexChar(d)] == Zeros(k) + (Hex(v) + [HexChar(d)]);
    }
  }

  lemma HexZero()
    ensures Hex(0) == [48]
  {
  }

  lemma LoweredMore(s: Bytes, b: byte)
    ensures Lowered(s + [b]) == Lowered(s) + [if 65 <= b <= 70 then b + 32 else b]
  {
    LoweredLast(s + [b]);
    assert (s + [b])[..|s|] == s;
  }

  lemma {:induction false} NamedHex(s: Bytes, n: nat)
    requires NamesHex(s, n)
    ensures HexValue(s) == Some(n)
    decreases |s|
  {
    var k: nat :| Lowered(s) == Zeros(k) + Hex(n);
    var front, d := s[..|s| - 1], n % 16;
    LoweredLast(s);
    HexStep(n / 16, d);
    var before := if n / 16 == 0 then Zeros(k) else Zeros(k) + Hex(n / 16);
    assert Lowered(s) == before + [HexChar(d)];
    assert Lowered(front) == Lowered(s)[..|s| - 1] == before;
    HexDigitIs(s[|s| - 1], d);
    if n / 16 > 0 {
      NamedHex(front, n / 16);
    } else if k > 0 {
      ZerosMore(k - 1);
      assert Hex(0) == [48] by { HexStep(0, 0); }
      assert Lowered(front) == Zeros(k - 1) + Hex(0);
      NamedHex(front, 0);
    } else {
      assert front == [];
    }
  }

  /** A sign is allowed, and means nothing. */
  ghost predicate SignedHex(t: Bytes, n: nat) {
    NamesHex(t, n) || (t != [] && t[0] == 43 && NamesHex(t[1..], n))
  }

  lemma HexTight(t: Bytes, n: nat)
    requires SignedHex(t, n)
    ensures Tight(t) && (t[0] == 43 <==> !NamesHex(t, n)) && (t[0] == 43 ==> t[1..] != [])
  {
    var digits := if NamesHex(t, n) then t else t[1..];
    NamedHex(digits, n);
    HexNonEmpty(digits, n);
    HexDigits(digits);
    assert HexDigit(digits[0]).Some? && HexDigit(digits[|digits| - 1]).Some?;
    assert t[|t| - 1] == digits[|digits| - 1];
  }

  lemma HexNonEmpty(s: Bytes, n: nat)
    requires NamesHex(s, n)
    ensures s != []
  {
  }

  lemma {:induction false} HexDigits(s: Bytes)
    requires HexValue(s).Some?
    ensures forall i :: 0 <= i < |s| ==> HexDigit(s[i]).Some?
  {
    if s != [] {
      HexDigits(s[..|s| - 1]);
    }
  }

  /** What stands before the first semicolon, if there is one. */
  ghost predicate HeadOf(line: Bytes, t: Bytes) {
    (forall i :: 0 <= i < |t| ==> t[i] != 59) && (line == t || exists ext: Bytes :: line == t + [59] + ext)
  }

  lemma {:induction false} BeforeSemicolonIs(line: Bytes, t: Bytes)
    ensures BeforeSemicolon(line) == t <==> HeadOf(line, t)
  {
    if line == [] {
      assert HeadOf(line, t) ==> t == [];
      assert HeadOf([], []);
    } else if line[0] == 59 {
      assert line == [] + [59] + line[1..];
      assert HeadOf(line, []);
      if HeadOf(line, t) {
        OneHead(line, t, []);
      }
    } else {
      var rest := BeforeSemicolon(line[1..]);
      BeforeSemicolonIs(line[1..], rest);
      if rest == line[1..] {
        assert [line[0]] + rest == line;
      } else {
        var ext: Bytes :| line[1..] == rest + [59] + ext;
        assert line == ([line[0]] + rest) + [59] + ext;
      }
      assert HeadOf(line, [line[0]] + rest);
      if HeadOf(line, t) {
        OneHead(line, t, [line[0]] + rest);
      }
    }
  }

  lemma OneHead(line: Bytes, a: Bytes, b: Bytes)
    requires HeadOf(line, a) && HeadOf(line, b)
    ensures a == b
  {
    HeadEnds(line, a);
    HeadEnds(line, b);
    hide HeadOf;
  }

  lemma HeadEnds(line: Bytes, t: Bytes)
    requires HeadOf(line, t)
    ensures |t| <= |line| && t == line[..|t|] && (|t| < |line| ==> line[|t|] == 59) && forall i :: 0 <= i < |t| ==> line[i] != 59
  {
    if line != t {
      var ext: Bytes :| line == t + [59] + ext;
      assert forall i :: 0 <= i < |t| ==> line[i] == t[i];
    }
  }

  /**
   A chunk's size line names `n` exactly when what stands before its first semicolon
   is, but for white space around it, an optional plus, leading zeros and `n` in
   hexadecimal, and `n` fits a machine word.
   */
  lemma {:induction false} SizeExactly(line: Bytes, n: nat)
    ensures SizeOf(line) == Some(n) <==> n < USIZE_END && exists t :: SignedHex(t, n) && Trimmed(BeforeSemicolon(line), t)
  {
    var text := TrimEnd(TrimStart(BeforeSemicolon(line)));
    hide TrimEnd, TrimStart, BeforeSemicolon, HexValue, Trimmed, NamesHex;
    if SizeOf(line) == Some(n) {
      var digits := if text != [] && text[0] == 43 then text[1..] else text;
      HexNames(digits, n);
      assert SignedHex(text, n);
      HexTight(text, n);
      TrimIs(BeforeSemicolon(line), text);
    }
    if n < USIZE_END && exists t :: SignedHex(t, n) && Trimmed(BeforeSemicolon(line), t) {
      var t :| SignedHex(t, n) && Trimmed(BeforeSemicolon(line), t);
      HexTight(t, n);
      TrimIs(BeforeSemicolon(line), t);
      NamedHex(if NamesHex(t, n) then t else t[1..], n);
    }
  }
}
