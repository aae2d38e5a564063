/** The console's UTF-16, read in pieces, as UTF-8 bytes. */
module Utf16 {
  import opened Prelude

  type Unit = x: int | 0 <= x < 0x1_0000

  predicate IsHigh(u: Unit) {
    0xD800 <= u < 0xDC00
  }

  predicate IsLow(u: Unit) {
    0xDC00 <= u < 0xE000
  }

  const REPLACEMENT: int := 0xFFFD

  /** How many units the first character takes. */
  function Taken(units: seq<Unit>): (n: nat)
    requires units != []
    ensures 1 <= n <= |units| && n <= 2
  {
    if IsHigh(units[0]) && |units| > 1 && IsLow(units[1]) then 2 else 1
  }

  function First(units: seq<Unit>): (v: int)
    requires units != []
    ensures IsScalar(v)
  {
    if Taken(units) == 2 then 0x1_0000 + (units[0] - 0xD800) * 0x400 + (units[1] - 0xDC00)
    else if IsHigh(units[0]) || IsLow(units[0]) then REPLACEMENT
    else units[0]
  }

  /** The scalar values of some units; a surrogate on its own is U+FFFD. */
  function Lossy(units: seq<Unit>): (scalars: seq<int>)
    ensures forall i :: 0 <= i < |scalars| ==> IsScalar(scalars[i])
  {
    if units == [] then [] else [First(units)] + Lossy(units[Taken(units)..])
  }

  predicate IsScalar(v: int) {
    0 <= v < 0xD800 || 0xE000 <= v < 0x11_0000
  }

  /** A scalar value in UTF-8 (section 3 of RFC 3629). */
  function Utf8(v: int): (bytes: Bytes)
    requires IsScalar(v)
  {
    if v < 0x80 then [v]
    else if v < 0x800 then [0xC0 + v / 0x40, 0x80 + v % 0x40]
    else if v < 0x1_0000 then [0xE0 + v / 0x1000, 0x80 + v / 0x40 % 0x40, 0x80 + v % 0x40]
    else [0xF0 + v / 0x4_0000, 0x80 + v / 0x1000 % 0x40, 0x80 + v / 0x40 % 0x40, 0x80 + v % 0x40]
  }

  function Encoded(scalars: seq<int>): Bytes
    requires forall i :: 0 <= i < |scalars| ==> IsScalar(scalars[i])
  {
    if scalars == [] then [] else Utf8(scalars[0]) + Encoded(scalars[1..])
  }

  /** All of some units, lossily. */
  function LossyBytes(units: seq<Unit>): Bytes {
    Encoded(Lossy(units))
  }

  // ----- a read at a time -----

  /** The high surrogate at the end, which waits for its half. */
  function Held(units: seq<Unit>): (held: seq<Unit>)
    ensures |held| <= 1
  {
    if units != [] && IsHigh(units[|units| - 1]) then [units[|units| - 1]] else []
  }

  class Decoder {
    var high: Option<Unit>

    constructor ()
      ensures high == None
    {
      high := None;
    }

    ghost function Waiting(): seq<Unit>
      reads this
    {
      if high.Some? then [high.value] else []
    }

    ghost predicate Valid()
      reads this
    {
      high.Some? ==> IsHigh(high.value)
    }

    method Push(units: seq<Unit>) returns (bytes: Bytes)
      requires Valid()
      modifies this
      ensures Valid() && (bytes, Waiting()) == Pushed(old(Waiting()), units)
      ensures bytes + LossyBytes(Waiting()) == LossyBytes(old(Waiting()) + units)
    {
      hide Lossy, Encoded;
      var all: seq<Unit> := if high.Some? then [high.value] else [];
      high := None;
      all := all + units;
      ghost var whole := all;
      assert whole[..|whole|] == whole;
      if |all| > 0 {
        var last := all[|all| - 1];
        if 0xD800 <= last < 0xDC00 {
          high := Some(last);
          all := all[..|all| - 1];
          HighLast(whole);
        }
      }
      bytes := LossyBytes(all);
      NothingLossy(bytes);
    }
  }

  lemma NothingLossy(bytes: Bytes)
    ensures LossyBytes([]) == [] && bytes + LossyBytes([]) == bytes
  {
  }

  lemma {:induction false} EncodedJoin(a: seq<int>, b: seq<int>)
    requires forall i :: 0 <= i < |a| ==> IsScalar(a[i])
    requires forall i :: 0 <= i < |b| ==> IsScalar(b[i])
    ensures Encoded(a + b) == Encoded(a) + Encoded(b)
  {
    hide Utf8;
    if a == [] {
      assert a + b == b;
    } else {
      assert (a + b)[1..] == a[1..] + b;
      EncodedJoin(a[1..], b);
    }
  }

  lemma FirstJoin(a: seq<Unit>, b: seq<Unit>)
    requires a != [] && (Held(a) == [] || b == [] || !IsLow(b[0]))
    ensures Taken(a + b) == Taken(a) && First(a + b) == First(a)
  {
  }

  lemma HeldRest(a: seq<Unit>, n: nat)
    requires n <= |a|
    ensures Held(a) == [] ==> Held(a[n..]) == []
  {
    assert n < |a| ==> a[n..][|a[n..]| - 1] == a[|a| - 1];
  }

  /** A pair is not split where the left part does not end in a high surrogate. */
  lemma {:induction false} LossyJoin(a: seq<Unit>, b: seq<Unit>)
    requires Held(a) == [] || b == [] || !IsLow(b[0])
    ensures Lossy(a + b) == Lossy(a) + Lossy(b)
    decreases |a|
  {
    hide Taken, First, Held;
    if a == [] {
      assert a + b == b;
      assert [] + Lossy(b) == Lossy(b);
    } else {
      var n := Taken(a);
      FirstJoin(a, b);
      HeldRest(a, n);
      assert (a + b)[n..] == a[n..] + b;
      LossyJoin(a[n..], b);
    }
  }

  lemma {:induction false} BytesJoin(a: seq<Unit>, b: seq<Unit>)
    requires Held(a) == [] || b == [] || !IsLow(b[0])
    ensures LossyBytes(a + b) == LossyBytes(a) + LossyBytes(b)
  {
    LossyJoin(a, b);
    EncodedJoin(Lossy(a), Lossy(b));
  }

  lemma HighLast(all: seq<Unit>)
    requires all != [] && IsHigh(all[|all| - 1])
    ensures LossyBytes(all) == LossyBytes(all[..|all| - 1]) + LossyBytes([all[|all| - 1]])
  {
    assert all == all[..|all| - 1] + [all[|all| - 1]];
    BytesJoin(all[..|all| - 1], [all[|all| - 1]]);
  }

  // ----- however the units are split -----

  /** What one push gives, by the units waiting before it. */
  function Pushed(waiting: seq<Unit>, units: seq<Unit>): (Bytes, seq<Unit>) {
    var all := waiting + units;
    var held := Held(all);
    (LossyBytes(all[..|all| - |held|]), held)
  }

  function PushEach(waiting: seq<Unit>, pushes: seq<seq<Unit>>): (Bytes, seq<Unit>)
    decreases |pushes|
  {
    if pushes == [] then ([], waiting) else
      var first := Pushed(waiting, pushes[0]);
      var rest := PushEach(first.1, pushes[1..]);
      (first.0 + rest.0, rest.1)
  }

  lemma {:induction false} PushedSays(waiting: seq<Unit>, units: seq<Unit>, more: seq<Unit>)
    ensures var r := Pushed(waiting, units);
      && (r.1 == [] || IsHigh(r.1[0])) && |r.1| <= 1
      && LossyBytes(waiting + units + more) == r.0 + LossyBytes(r.1 + more)
  {
    hide Lossy, Encoded;
    var all := waiting + units;
    var r := Pushed(waiting, units);
    var front := all[..|all| - |r.1|];
    assert all == front + r.1;
    assert all + more == front + (r.1 + more);
    if r.1 == [] {
      assert front == all;
    }
    BytesJoin(front, r.1 + more);
  }

  /** However the units are split, the bytes given, and a replacement for a half still waiting, are those of the whole. */
  lemma {:induction false} SplitsDoNotMatter(waiting: seq<Unit>, pushes: seq<seq<Unit>>)
    requires waiting == [] || (|waiting| == 1 && IsHigh(waiting[0]))
    ensures var r := PushEach(waiting, pushes);
      && LossyBytes(waiting + Concat(pushes)) == r.0 + (if r.1 == [] then [] else Utf8(REPLACEMENT))
      && |r.1| <= 1
    decreases |pushes|
  {
    hide Lossy, Encoded, Utf8;
    if pushes == [] {
      assert waiting + Concat(pushes) == waiting;
      HalfIsReplaced(waiting);
    } else {
      var first := Pushed(waiting, pushes[0]);
      PushedSays(waiting, pushes[0], Concat(pushes[1..]));
      assert waiting + Concat(pushes) == waiting + pushes[0] + Concat(pushes[1..]);
      SplitsDoNotMatter(first.1, pushes[1..]);
      var rest := PushEach(first.1, pushes[1..]);
      var tail := if rest.1 == [] then [] else Utf8(REPLACEMENT);
      assert first.0 + (rest.0 + tail) == (first.0 + rest.0) + tail;
    }
  }

  lemma HalfIsReplaced(waiting: seq<Unit>)
    requires waiting == [] || (|waiting| == 1 && IsHigh(waiting[0]))
    ensures LossyBytes(waiting) == [] + if waiting == [] then [] else Utf8(REPLACEMENT)
  {
    if waiting != [] {
      assert waiting[1..] == [];
      assert Lossy(waiting) == [REPLACEMENT];
      assert [REPLACEMENT][1..] == [];
      assert Encoded([REPLACEMENT]) == Utf8(REPLACEMENT) + [];
    }
  }

  // ----- characters -----

  /** A character as the console gives it. */
  function Units(v: int): (units: seq<Unit>)
    requires IsScalar(v)
  {
    if v < 0x1_0000 then [v] else [0xD800 + (v - 0x1_0000) / 0x400, 0xDC00 + (v - 0x1_0000) % 0x400]
  }

  function AllUnits(text: seq<int>): seq<Unit>
    requires forall i :: 0 <= i < |text| ==> IsScalar(text[i])
  {
    if text == [] then [] else Units(text[0]) + AllUnits(text[1..])
  }

  /** Text typed at the console arrives as its UTF-8, however reads split it, with nothing left waiting. */
  lemma {:induction false} TextArrives(text: seq<int>, pushes: seq<seq<Unit>>)
    requires forall i :: 0 <= i < |text| ==> IsScalar(text[i])
    requires Concat(pushes) == AllUnits(text)
    ensures PushEach([], pushes) == (Encoded(text), [])
  {
    UnitsRead(text);
    SplitsDoNotMatter([], pushes);
    hide Lossy, Encoded, Utf8, AllUnits;
    var r := PushEach([], pushes);
    assert [] + Concat(pushes) == Concat(pushes);
    WaitingIsLast([], pushes);
    if r.1 == [] {
      assert r.0 + [] == r.0;
    }
  }

  lemma {:induction false} UnitsRead(text: seq<int>)
    requires forall i :: 0 <= i < |text| ==> IsScalar(text[i])
    ensures Lossy(AllUnits(text)) == text && Held(AllUnits(text)) == []
  {
    if text != [] {
      hide Units, First, Taken, Held;
      var u := Units(text[0]);
      var rest := AllUnits(text[1..]);
      UnitsRead(text[1..]);
      UnitsFirst(text[0], rest);
      LossyFirst(u, rest);
      assert [text[0]] + text[1..] == text;
    }
  }

  lemma LossyFirst(u: seq<Unit>, rest: seq<Unit>)
    requires u != [] && Taken(u + rest) == |u|
    ensures Lossy(u + rest) == [First(u + rest)] + Lossy(rest)
  {
    hide First, Taken;
    assert (u + rest)[|u|..] == rest;
  }

  /** A character's own units, whatever follows, are that character; and nothing of it waits. */
  lemma UnitsFirst(v: int, rest: seq<Unit>)
    requires IsScalar(v) && Held(rest) == []
    ensures var u := Units(v);
      u != [] && Taken(u + rest) == |u| && First(u + rest) == v && Held(u + rest) == []
  {
    var u := Units(v);
    assert (u + rest)[0] == u[0] && (|u| > 1 ==> (u + rest)[1] == u[1]);
    assert (u + rest)[|u + rest| - 1] == if rest == [] then u[|u| - 1] else rest[|rest| - 1];
    assert IsHigh(u[0]) <==> |u| == 2;
  }

  /** What is left waiting is the last unit, if it is a first half. */
  lemma {:induction false} WaitingIsLast(waiting: seq<Unit>, pushes: seq<seq<Unit>>)
    requires waiting == Held(waiting)
    ensures PushEach(waiting, pushes).1 == Held(waiting + Concat(pushes))
    decreases |pushes|
  {
    hide Held, Concat, PushEach;
    if pushes == [] {
      NoPushes(waiting);
    } else {
      var all := waiting + pushes[0];
      var later := Concat(pushes[1..]);
      ConcatFirst(pushes);
      FirstPush(waiting, pushes);
      HeldTwice(all, later);
      WaitingIsLast(Held(all), pushes[1..]);
      assert waiting + (pushes[0] + later) == all + later;
    }
  }

  lemma NoPushes(waiting: seq<Unit>)
    ensures PushEach(waiting, []).1 == waiting == waiting + Concat([])
  {
  }

  lemma FirstPush(waiting: seq<Unit>, pushes: seq<seq<Unit>>)
    requires pushes != []
    ensures PushEach(waiting, pushes).1 == PushEach(Held(waiting + pushes[0]), pushes[1..]).1
  {
    hide Held, LossyBytes;
  }

  lemma ConcatFirst(pushes: seq<seq<Unit>>)
    requires pushes != []
    ensures Concat(pushes) == pushes[0] + Concat(pushes[1..])
  {
  }

  lemma HeldTwice(all: seq<Unit>, later: seq<Unit>)
    ensures Held(Held(all)) == Held(all) && Held(Held(all) + later) == Held(all + later)
  {
    var held := Held(all);
    if later == [] {
      assert all + later == all && held + later == held;
    } else {
      assert (all + later)[|all + later| - 1] == later[|later| - 1] == (held + later)[|held + later| - 1];
    }
  }

  /** A surrogate without its other half is one replacement character, and what stands around it is read as it would be. */
  lemma {:induction false} LoneIsReplaced(a: seq<Unit>, u: Unit, b: seq<Unit>)
    requires IsHigh(u) || IsLow(u)
    requires IsHigh(u) ==> b == [] || !IsLow(b[0])
    requires IsLow(u) ==> a == [] || !IsHigh(a[|a| - 1])
    ensures Lossy(a + [u] + b) == Lossy(a) + [0xFFFD] + Lossy(b)
  {
    LossyJoin(a, [u] + b);
    LossyFirst([u], b);
    assert a + [u] + b == a + ([u] + b);
    assert Lossy(a) + ([0xFFFD] + Lossy(b)) == Lossy(a) + [0xFFFD] + Lossy(b);
  }

  /** A character outside the basic plane is its two halves, and any other unit is itself. */
  lemma {:induction false} PairIsRead(a: seq<Unit>, high: Unit, low: Unit, b: seq<Unit>)
    requires 0xD800 <= high <= 0xDBFF && 0xDC00 <= low <= 0xDFFF
    ensures Lossy(a + [high, low] + b) == Lossy(a) + [(high - 0xD800) * 1024 + (low - 0xDC00) + 65536] + Lossy(b)
  {
    LossyJoin(a, [high, low] + b);
    LossyFirst([high, low], b);
    assert a + [high, low] + b == a + ([high, low] + b);
    assert First([high, low] + b) == (high - 0xD800) * 1024 + (low - 0xDC00) + 65536;
    assert Lossy(a) + ([First([high, low] + b)] + Lossy(b)) == Lossy(a) + [First([high, low] + b)] + Lossy(b);
  }
}
