/** Unpadded base32 (section 6 of RFC 4648). */
module Base32 {
  import opened Prelude
  import opened Arithmetic

  const ALPHABET: string := "ABCDEFGHIJKLMNOPQRSTUVWXYZ234567"
  const U32_END: nat := 0x1_0000_0000

  type Bit = x: int | 0 <= x < 2

  // ----- bit strings -----

  function Pow2(n: nat): (p: nat)
    ensures p > 0
  {
    if n == 0 then 1 else 2 * Pow2(n - 1)
  }

  /** The number a bit string spells, high bit first. */
  function Value(bits: seq<Bit>): (v: nat)
    ensures v < Pow2(|bits|)
  {
    if bits == [] then 0 else 2 * Value(bits[..|bits| - 1]) + bits[|bits| - 1]
  }

  /** The low `n` bits of a number, high bit first. */
  function BitsOf(v: nat, n: nat): (bits: seq<Bit>)
    ensures |bits| == n
  {
    if n == 0 then [] else BitsOf(v / 2, n - 1) + [v % 2]
  }

  function Bits(bytes: Bytes): (bits: seq<Bit>)
    ensures |bits| == 8 * |bytes|
  {
    if bytes == [] then [] else BitsOf(bytes[0], 8) + Bits(bytes[1..])
  }

  function Zeros(n: nat): (bits: seq<Bit>)
    ensures |bits| == n
  {
    seq(n, _ => 0)
  }

  /** Five bits at a time; a last, shorter group is padded with zeros. */
  function Fives(bits: seq<Bit>): (groups: seq<nat>)
    ensures |groups| == (|bits| + 4) / 5
    ensures forall i :: 0 <= i < |groups| ==> groups[i] < 32
    decreases |bits|
  {
    if bits == [] then []
    else if |bits| < 5 then
      Pows();
      [Value(bits + Zeros(5 - |bits|))]
    else
      Pows();
      [Value(bits[..5])] + Fives(bits[5..])
  }

  lemma Pows()
    ensures Pow2(0) == 1 && Pow2(1) == 2 && Pow2(2) == 4 && Pow2(3) == 8 && Pow2(4) == 16 && Pow2(5) == 32
    ensures Pow2(6) == 64 && Pow2(7) == 128 && Pow2(8) == 256 && Pow2(9) == 512 && Pow2(10) == 1024
    ensures Pow2(11) == 2048 && Pow2(12) == 4096
  {
    assert Pow2(2) == 4;
    assert Pow2(4) == 16;
    assert Pow2(6) == 64;
    assert Pow2(8) == 256;
    assert Pow2(10) == 1024;
  }

  function Letters(groups: seq<nat>): (text: string)
    requires forall i :: 0 <= i < |groups| ==> groups[i] < 32
    ensures |text| == |groups|
  {
    seq(|groups|, i requires 0 <= i < |groups| => ALPHABET[groups[i]])
  }

  /** The bytes' bit string regrouped by five, a letter for each group. */
  function Encoded(bytes: Bytes): (text: string)
    ensures |text| == (8 * |bytes| + 4) / 5
  {
    Letters(Fives(Bits(bytes)))
  }

  // ----- the shift buffer -----

  lemma {:induction false} ValueJoin(a: seq<Bit>, b: seq<Bit>)
    ensures Value(a + b) == Value(a) * Pow2(|b|) + Value(b)
  {
    if b == [] {
      assert a + b == a;
    } else {
      var front := b[..|b| - 1];
      assert (a + b)[..|a + b| - 1] == a + front;
      ValueJoin(a, front);
      Doubles(Value(a), Pow2(|front|), Value(front), b[|b| - 1]);
    }
  }

  lemma Doubles(a: nat, p: nat, v: nat, last: nat)
    ensures 2 * (a * p + v) + last == a * (2 * p) + (2 * v + last)
  {
  }

  lemma {:induction false} ValueOfBits(v: nat, n: nat)
    ensures v < Pow2(n) ==> Value(BitsOf(v, n)) == v
  {
    if n > 0 {
      ValueOfBits(v / 2, n - 1);
      assert BitsOf(v, n)[..n - 1] == BitsOf(v / 2, n - 1);
    }
  }

  lemma {:induction false} BitsOfValue(bits: seq<Bit>)
    ensures BitsOf(Value(bits), |bits|) == bits
  {
    if bits != [] {
      BitsOfValue(bits[..|bits| - 1]);
    }
  }

  /** Shifting a byte in: the bits pending grow by eight, and what falls off the top was not pending. */
  lemma ShiftIn(buffer: nat, pending: seq<Bit>, b: byte)
    requires |pending| < 5 && Value(pending) == buffer % Pow2(|pending|)
    ensures Value(pending + BitsOf(b, 8)) == (buffer * 256 % U32_END + b) % Pow2(|pending| + 8)
  {
    PowOfFew(|pending|);
    PowOfByte(|pending|);
    hide Pow2;
    ValueJoin(pending, BitsOf(b, 8));
    ValueOfBits(b, 8);
    hide Value, BitsOf;
    ShiftSum(buffer, b, Pow2(|pending|));
  }

  lemma PowOfFew(n: nat)
    requires n < 5
    ensures Pow2(n) in {1, 2, 4, 8, 16}
  {
    Pows();
  }

  lemma PowOfFive(n: nat)
    ensures Pow2(n + 5) == 32 * Pow2(n) && Pow2(5) == 32
  {
    assert Pow2(n + 2) == 4 * Pow2(n);
    assert Pow2(n + 4) == 4 * Pow2(n + 2);
    assert Pow2(2) == 4 && Pow2(4) == 16;
  }

  lemma PowOfByte(n: nat)
    ensures Pow2(n + 8) == 256 * Pow2(n) && Pow2(8) == 256
  {
    assert Pow2(n + 2) == 4 * Pow2(n);
    assert Pow2(n + 4) == 4 * Pow2(n + 2);
    assert Pow2(n + 6) == 4 * Pow2(n + 4);
    assert Pow2(2) == 4 && Pow2(4) == 16 && Pow2(6) == 64;
  }

  lemma ShiftSum(buffer: nat, b: byte, p: nat)
    requires p in {1, 2, 4, 8, 16}
    ensures buffer % p * 256 + b == (buffer * 256 % U32_END + b) % (256 * p)
  {
    var k := if p == 1 then 0x100_0000 else if p == 2 then 0x80_0000 else if p == 4 then 0x40_0000
             else if p == 8 then 0x20_0000 else 0x10_0000;
    var t, q := buffer * 256 / U32_END, buffer / p;
    ModIs(256 * p, q, buffer % p * 256 + b);
    Factors(256 * p, k, t, q);
    assert buffer == p * q + buffer % p;
    assert buffer * 256 % U32_END + b == 256 * p * (q - k * t) + (buffer % p * 256 + b);
    ModIs(256 * p, q - k * t, buffer % p * 256 + b);
  }

  lemma Factors(m: nat, k: nat, t: nat, q: nat)
    requires m * k == U32_END
    ensures m * (q - k * t) == m * q - U32_END * t
  {
    assert m * (k * t) == (m * k) * t;
  }

  /** Taking five: the letter's number is the first five pending bits, the rest stay. */
  lemma TakeFive(buffer: nat, pending: seq<Bit>)
    requires 5 <= |pending| <= 12 && Value(pending) == buffer % Pow2(|pending|)
    ensures buffer / Pow2(|pending| - 5) % 32 == Value(pending[..5])
    ensures Value(pending[5..]) == buffer % Pow2(|pending| - 5)
  {
    PowOfFive(|pending| - 5);
    hide Pow2;
    assert pending == pending[..5] + pending[5..];
    ValueJoin(pending[..5], pending[5..]);
    hide Value;
    TakeHigh(buffer, Pow2(|pending| - 5), Value(pending[..5]), Value(pending[5..]));
  }

  lemma TakeHigh(buffer: nat, p: nat, high: nat, low: nat)
    requires p > 0 && high < 32 && low < p && buffer % (32 * p) == high * p + low
    ensures buffer / p % 32 == high && buffer % p == low
  {
    var q := buffer / (32 * p);
    assert buffer == 32 * p * q + (high * p + low);
    assert 32 * p * q + high * p == p * (32 * q + high);
    ModIs(p, 32 * q + high, low);
    ModIs(32, q, high);
  }

  /** The last letter: the pending bits, padded. */
  lemma PadLast(buffer: nat, pending: seq<Bit>)
    requires 0 < |pending| < 5 && Value(pending) == buffer % Pow2(|pending|)
    ensures buffer * Pow2(5 - |pending|) % U32_END % 32 == Value(pending + Zeros(5 - |pending|))
  {
    Pows();
    ValueJoin(pending, Zeros(5 - |pending|));
    ZeroValue(5 - |pending|);
    hide Value, Zeros;
    PadSum(buffer, |pending|);
  }

  lemma PadSum(buffer: nat, n: nat)
    requires 0 < n < 5
    ensures buffer * Pow2(5 - n) % U32_END % 32 == buffer % Pow2(n) * Pow2(5 - n)
  {
    Pows();
    var p, c := Pow2(n), Pow2(5 - n);
    hide Pow2;
    assert p * c == 32 && c in {2, 4, 8, 16};
    var t, q := buffer * c / U32_END, buffer / p;
    Factors(32, 0x800_0000, t, q);
    PadParts(buffer, p, c);
    assert buffer * c % U32_END == 32 * (q - 0x800_0000 * t) + buffer % p * c;
    ModIs(32, q - 0x800_0000 * t, buffer % p * c);
  }

  lemma PadParts(buffer: nat, p: nat, c: nat)
    requires p > 0 && p * c == 32
    ensures buffer * c == 32 * (buffer / p) + buffer % p * c && 0 <= buffer % p * c < 32
  {
    var q, r := buffer / p, buffer % p;
    assert buffer == p * q + r;
    assert (p * q + r) * c == (p * c) * q + r * c;
    Monotone(c, r + 1, p);
  }

  lemma {:induction false} ZeroValue(n: nat)
    ensures Value(Zeros(n)) == 0
  {
    if n > 0 {
      assert Zeros(n)[..n - 1] == Zeros(n - 1);
      ZeroValue(n - 1);
    }
  }

  lemma TakeGroup(bits: seq<Bit>, rest: seq<Bit>)
    requires |bits| >= 5
    ensures Fives(bits + rest) == [Value(bits[..5])] + Fives(bits[5..] + rest)
  {
    assert (bits + rest)[..5] == bits[..5] && (bits + rest)[5..] == bits[5..] + rest;
  }

  method Encode(bytes: Bytes) returns (out: string)
    ensures out == Encoded(bytes)
    ensures |out| == (8 * |bytes| + 4) / 5
  {
    hide Value, BitsOf, Fives, Bits, Zeros;
    Pows();
    out := "";
    var buffer: nat := 0;
    var bits := 0;
    ghost var pending: seq<Bit> := [];
    ghost var done: seq<nat> := [];
    Nothing(bytes);
    for i := 0 to |bytes|
      invariant |pending| == bits < 5 && buffer < U32_END
      invariant Value(pending) == buffer % Pow2(bits)
      invariant forall k :: 0 <= k < |done| ==> done[k] < 32
      invariant out == Letters(done)
      invariant done + Fives(pending + Bits(bytes[i..])) == Fives(Bits(bytes))
    {
      ShiftIn(buffer, pending, bytes[i]);
      NextByte(bytes, i, pending);
      buffer := buffer * 256 % U32_END + bytes[i];
      bits := bits + 8;
      pending := pending + BitsOf(bytes[i], 8);
      while bits >= 5
        invariant 0 <= bits <= 12 && |pending| == bits && buffer < U32_END
        invariant Value(pending) == buffer % Pow2(bits)
        invariant forall k :: 0 <= k < |done| ==> done[k] < 32
        invariant out == Letters(done)
        invariant done + Fives(pending + Bits(bytes[i + 1..])) == Fives(Bits(bytes))
      {
        TakeFive(buffer, pending);
        TakeGroup(pending, Bits(bytes[i + 1..]));
        bits := bits - 5;
        out := out + [ALPHABET[buffer / Pow2(bits) % 32]];
        Regroup(done, Value(pending[..5]), Fives(pending[5..] + Bits(bytes[i + 1..])));
        done := done + [Value(pending[..5])];
        pending := pending[5..];
      }
    }
    LastGroup(bytes, pending);
    if bits > 0 {
      PadLast(buffer, pending);
      out := out + [ALPHABET[buffer * Pow2(5 - bits) % U32_END % 32]];
    }
  }

  lemma Nothing(bytes: Bytes)
    ensures bytes[0..] == bytes && Value([]) == 0 && [] + Fives([] + Bits(bytes)) == Fives(Bits(bytes))
  {
    assert [] + Bits(bytes) == Bits(bytes);
  }

  lemma NextByte(bytes: Bytes, i: nat, pending: seq<Bit>)
    requires i < |bytes|
    ensures pending + Bits(bytes[i..]) == (pending + BitsOf(bytes[i], 8)) + Bits(bytes[i + 1..])
  {
    assert bytes[i..][1..] == bytes[i + 1..];
  }

  lemma Regroup(done: seq<nat>, group: nat, rest: seq<nat>)
    ensures done + ([group] + rest) == (done + [group]) + rest
  {
  }

  lemma LastGroup(bytes: Bytes, pending: seq<Bit>)
    requires |pending| < 5
    ensures bytes[|bytes|..] == [] && Fives(pending + Bits([])) == if pending == [] then [] else [Value(pending + Zeros(5 - |pending|))]
  {
    assert pending + Bits([]) == pending;
  }

  // ----- a decoder -----

  function LetterAt(c: char, from: nat): (r: Option<nat>)
    requires from <= 32
    ensures r.Some? ==> r.value < 32
    decreases 32 - from
  {
    if from == 32 then None else if ALPHABET[from] == c then Some(from) else LetterAt(c, from + 1)
  }

  /** Five bits a letter. */
  function BitsIn(text: string): Option<seq<Bit>> {
    if text == [] then Some([]) else
      match (LetterAt(text[0], 0), BitsIn(text[1..]))
      case (Some(v), Some(bits)) => Some(BitsOf(v, 5) + bits)
      case _ => None
  }

  /** Eight bits a byte; what is left at the end is padding. */
  function BytesIn(bits: seq<Bit>): Bytes
    decreases |bits|
  {
    if |bits| < 8 then [] else
      Pows();
      [Value(bits[..8])] + BytesIn(bits[8..])
  }

  function Decoded(text: string): Option<Bytes> {
    match BitsIn(text)
    case None => None
    case Some(bits) => Some(BytesIn(bits))
  }

  lemma LetterNamed(v: nat)
    requires v < 32
    ensures LetterAt(ALPHABET[v], 0) == Some(v)
  {
    NoEarlier(v, 0);
  }

  lemma {:induction false} NoEarlier(v: nat, from: nat)
    requires from <= v < 32
    ensures LetterAt(ALPHABET[v], from) == Some(v)
    decreases v - from
  {
    if from < v {
      AllDistinct(from, v);
      NoEarlier(v, from + 1);
    }
  }

  /** A letter's number, from its place in the alphabet. */
  lemma AllDistinct(i: nat, j: nat)
    requires i < j < 32
    ensures ALPHABET[i] != ALPHABET[j]
  {
    LetterCode(i);
    LetterCode(j);
  }

  lemma LetterCode(i: nat)
    requires i < 32
    ensures ALPHABET[i] as int == if i < 26 then 65 + i else 24 + i
  {
    assert i == 0 || i == 1 || i == 2 || i == 3 || i == 4 || i == 5 || i == 6 || i == 7
        || i == 8 || i == 9 || i == 10 || i == 11 || i == 12 || i == 13 || i == 14 || i == 15
        || i == 16 || i == 17 || i == 18 || i == 19 || i == 20 || i == 21 || i == 22 || i == 23
        || i == 24 || i == 25 || i == 26 || i == 27 || i == 28 || i == 29 || i == 30 || i == 31;
  }

  /** The letters' bits are the bits encoded and fewer than five zeros. */
  lemma {:induction false} LettersHoldBits(bits: seq<Bit>) returns (pad: nat)
    ensures pad < 5 && BitsIn(Letters(Fives(bits))) == Some(bits + Zeros(pad))
    decreases |bits|
  {
    hide Value, BitsOf, LetterAt;
    Pows();
    var text := Letters(Fives(bits));
    if bits == [] {
      pad := 0;
      assert bits + Zeros(0) == [];
    } else if |bits| < 5 {
      pad := 5 - |bits|;
      var group := bits + Zeros(pad);
      LetterNamed(Value(group));
      BitsOfValue(group);
      assert text[1..] == [];
      assert group + [] == group;
    } else {
      pad := LettersHoldBits(bits[5..]);
      LetterNamed(Value(bits[..5]));
      BitsOfValue(bits[..5]);
      assert text[1..] == Letters(Fives(bits[5..]));
      assert bits[..5] + (bits[5..] + Zeros(pad)) == bits + Zeros(pad);
    }
  }

  lemma {:induction false} BytesBack(bytes: Bytes, pad: seq<Bit>)
    requires |pad| < 8
    ensures BytesIn(Bits(bytes) + pad) == bytes
  {
    if bytes == [] {
      assert Bits(bytes) + pad == pad;
    } else {
      var all := Bits(bytes) + pad;
      assert all[..8] == BitsOf(bytes[0], 8) && all[8..] == Bits(bytes[1..]) + pad;
      Pows();
      ValueOfBits(bytes[0], 8);
      BytesBack(bytes[1..], pad);
    }
  }

  /** Every input comes back from its letters. */
  lemma {:induction false} DecodeUndoes(bytes: Bytes)
    ensures Decoded(Encoded(bytes)) == Some(bytes)
  {
    var pad := LettersHoldBits(Bits(bytes));
    BytesBack(bytes, Zeros(pad));
  }
}
