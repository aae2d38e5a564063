/** The shell's escape: `~` at the start of a line, then `.` to disconnect or `~` for one `~`. */
module EscapeFilter {
  import opened Prelude

  const TILDE: byte := 126
  const DOT: byte := 46
  const CR: byte := 13
  const LF: byte := 10

  datatype EscapeState = EscapeState(lineStart: bool, pending: bool)

  /** What is sent, whether to disconnect, and the state left. */
  datatype Filtered = Filtered(out: Bytes, quit: bool, next: EscapeState)

  const Fresh: EscapeState := EscapeState(true, false)

  predicate EndsLine(b: byte) {
    b == CR || b == LF
  }

  /** One byte: what it sends and the state after it, or none if it disconnects. */
  function OneByte(s: EscapeState, b: byte): Option<(Bytes, EscapeState)> {
    if s.pending then
      if b == DOT then None
      else Some((if b == TILDE then [TILDE] else [TILDE, b], EscapeState(EndsLine(b), false)))
    else if s.lineStart && b == TILDE then Some(([], EscapeState(true, true)))
    else Some(([b], EscapeState(EndsLine(b), false)))
  }

  function Filter(s: EscapeState, bytes: Bytes): Filtered
    decreases |bytes|
  {
    if bytes == [] then Filtered([], false, s) else
      match OneByte(s, bytes[0])
      case None => Filtered([], true, s.(pending := false))
      case Some((sent, next)) =>
        var rest := Filter(next, bytes[1..]);
        rest.(out := sent + rest.out)
  }

  class Escape {
    var lineStart: bool
    var pending: bool

    constructor ()
      ensures View() == Fresh
    {
      lineStart, pending := true, false;
    }

    ghost function View(): EscapeState
      reads this
    {
      EscapeState(lineStart, pending)
    }

    method FilterBytes(bytes: Bytes) returns (out: Bytes, quit: bool)
      modifies this
      ensures Filtered(out, quit, View()) == Filter(old(View()), bytes)
    {
      hide Filter;
      out := [];
      NothingSent(View(), bytes);
      for i := 0 to |bytes|
        invariant Sending(out, Filter(View(), bytes[i..])) == Filter(old(View()), bytes)
      {
        var b := bytes[i];
        SendStep(View(), bytes, i, out);
        if pending {
          pending := false;
          if b == DOT {
            return out, true;
          }
          if b == TILDE {
            out := out + [TILDE];
          } else {
            out := out + [TILDE];
            out := out + [b];
          }
        } else if lineStart && b == TILDE {
          pending := true;
          continue;
        } else {
          out := out + [b];
        }
        lineStart := b == CR || b == LF;
      }
      assert bytes[|bytes|..] == [];
      EndSent(View(), out);
      quit := false;
    }
  }

  ghost function Sending(out: Bytes, rest: Filtered): Filtered {
    rest.(out := out + rest.out)
  }

  lemma NothingSent(s: EscapeState, bytes: Bytes)
    ensures Sending([], Filter(s, bytes[0..])) == Filter(s, bytes)
  {
    assert bytes[0..] == bytes;
    assert [] + Filter(s, bytes).out == Filter(s, bytes).out;
  }

  lemma EndSent(s: EscapeState, out: Bytes)
    ensures Sending(out, Filter(s, [])) == Filtered(out, false, s)
  {
    assert out + [] == out;
  }

  lemma SendStep(s: EscapeState, bytes: Bytes, i: nat, out: Bytes)
    requires i < |bytes|
    ensures var one := OneByte(s, bytes[i]);
      && (one.None? ==> Sending(out, Filter(s, bytes[i..])) == Filtered(out, true, s.(pending := false)))
      && (one.Some? ==> Sending(out, Filter(s, bytes[i..])) == Sending(out + one.value.0, Filter(one.value.1, bytes[i + 1..])))
      && (one == Some(([TILDE, bytes[i]], EscapeState(EndsLine(bytes[i]), false))) ==>
            out + one.value.0 == out + [TILDE] + [bytes[i]])
      && (one == Some(([], EscapeState(true, true))) ==> out + one.value.0 == out)
  {
    assert bytes[i..][1..] == bytes[i + 1..];
    var one := OneByte(s, bytes[i]);
    if one.Some? {
      var later := Filter(one.value.1, bytes[i + 1..]).out;
      assert out + (one.value.0 + later) == (out + one.value.0) + later;
    } else {
      assert out + [] == out;
    }
  }

  // ----- however the input is split -----

  lemma {:induction false} FilterSplits(s: EscapeState, a: Bytes, b: Bytes)
    ensures var first := Filter(s, a);
      Filter(s, a + b) ==
      if first.quit then first else Filter(first.next, b).(out := first.out + Filter(first.next, b).out)
    decreases |a|
  {
    if a == [] {
      assert a + b == b;
      assert [] + Filter(s, b).out == Filter(s, b).out;
    } else {
      assert (a + b)[1..] == a[1..] + b;
      match OneByte(s, a[0])
      case None =>
      case Some((sent, next)) =>
        FilterSplits(next, a[1..], b);
        var first := Filter(next, a[1..]);
        if !first.quit {
          assert sent + (first.out + Filter(first.next, b).out) == (sent + first.out) + Filter(first.next, b).out;
        }
    }
  }

  /** Reads one after another, none once one has disconnected. */
  function FilterEach(s: EscapeState, inputs: seq<Bytes>): Filtered
    decreases |inputs|
  {
    if inputs == [] then Filtered([], false, s) else
      var first := Filter(s, inputs[0]);
      if first.quit then first else
        var rest := FilterEach(first.next, inputs[1..]);
        rest.(out := first.out + rest.out)
  }

  /** What is sent, and whether it disconnects, does not depend on how reads split the input. */
  lemma {:induction false} SplitsDoNotMatter(s: EscapeState, inputs: seq<Bytes>)
    ensures FilterEach(s, inputs) == Filter(s, Concat(inputs))
    decreases |inputs|
  {
    if inputs != [] {
      FilterSplits(s, inputs[0], Concat(inputs[1..]));
      var first := Filter(s, inputs[0]);
      if !first.quit {
        SplitsDoNotMatter(first.next, inputs[1..]);
      }
    }
  }

  // ----- when it disconnects -----

  predicate AtLineStart(bytes: Bytes, i: nat, lineStart: bool)
    requires i < |bytes|
  {
    if i == 0 then lineStart else EndsLine(bytes[i - 1])
  }

  predicate QuitAt(bytes: Bytes, i: nat, lineStart: bool) {
    i + 1 < |bytes| && bytes[i] == TILDE && bytes[i + 1] == DOT && AtLineStart(bytes, i, lineStart)
  }

  ghost predicate HasQuit(bytes: Bytes, lineStart: bool) {
    exists i :: 0 <= i < |bytes| && QuitAt(bytes, i, lineStart)
  }

  lemma QuitLater(bytes: Bytes, lineStart: bool)
    requires bytes != [] && !QuitAt(bytes, 0, lineStart)
    ensures HasQuit(bytes, lineStart) <==> HasQuit(bytes[1..], EndsLine(bytes[0]))
  {
    if HasQuit(bytes, lineStart) {
      var i :| 0 <= i < |bytes| && QuitAt(bytes, i, lineStart);
      assert QuitAt(bytes[1..], i - 1, EndsLine(bytes[0]));
    }
    if HasQuit(bytes[1..], EndsLine(bytes[0])) {
      var i :| 0 <= i < |bytes[1..]| && QuitAt(bytes[1..], i, EndsLine(bytes[0]));
      assert QuitAt(bytes, i + 1, lineStart);
    }
  }

  /** What was typed: a `~` held back from an earlier read comes first. */
  function Typed(s: EscapeState, bytes: Bytes): Bytes {
    if s.pending then [TILDE] + bytes else bytes
  }

  /** A held `~` read again. */
  lemma {:induction false} HeldIsTyped(s: EscapeState, bytes: Bytes)
    requires s.pending
    ensures Filter(s, bytes).quit == Filter(EscapeState(true, false), Typed(s, bytes)).quit
    ensures s.lineStart ==> Filter(s, bytes).next.lineStart == Filter(EscapeState(true, false), Typed(s, bytes)).next.lineStart
    ensures Filter(s, bytes).next.pending == Filter(EscapeState(true, false), Typed(s, bytes)).next.pending
  {
    assert Typed(s, bytes)[1..] == bytes;
  }

  /** It disconnects exactly when a line starts with `~.`, over whatever reads it came. */
  lemma {:induction false} QuitsExactly(s: EscapeState, bytes: Bytes)
    ensures Filter(s, bytes).quit <==> HasQuit(Typed(s, bytes), s.lineStart || s.pending)
  {
    if s.pending {
      HeldIsTyped(s, bytes);
      QuitsFrom(EscapeState(true, false), Typed(s, bytes));
    } else {
      QuitsFrom(s, bytes);
    }
  }

  lemma {:induction false} QuitsFrom(s: EscapeState, bytes: Bytes)
    requires !s.pending
    ensures Filter(s, bytes).quit <==> HasQuit(bytes, s.lineStart)
    decreases |bytes|
  {
    if bytes != [] {
      if QuitAt(bytes, 0, s.lineStart) {
        assert bytes[1..][0] == DOT;
      } else {
        QuitLater(bytes, s.lineStart);
        if s.lineStart && bytes[0] == TILDE {
          if |bytes| > 1 {
            var rest := bytes[1..];
            QuitLater(rest, false);
            QuitsFrom(EscapeState(EndsLine(rest[0]), false), rest[1..]);
          }
        } else {
          QuitsFrom(EscapeState(EndsLine(bytes[0]), false), bytes[1..]);
        }
      }
    }
  }

  // ----- sending any bytes -----

  /** Each `~` that starts a line, twice. */
  function Doubled(bytes: Bytes, lineStart: bool): Bytes {
    if bytes == [] then []
    else (if lineStart && bytes[0] == TILDE then [TILDE, TILDE] else [bytes[0]]) + Doubled(bytes[1..], EndsLine(bytes[0]))
  }

  /** Doubling what starts a line sends any bytes as they are. */
  lemma {:induction false} DoublingSendsAll(bytes: Bytes, lineStart: bool)
    ensures var sent := Filter(EscapeState(lineStart, false), Doubled(bytes, lineStart));
      sent.out == bytes && !sent.quit && !sent.next.pending
    decreases |bytes|
  {
    if bytes != [] {
      var typed := Doubled(bytes, lineStart);
      var rest := Doubled(bytes[1..], EndsLine(bytes[0]));
      DoublingSendsAll(bytes[1..], EndsLine(bytes[0]));
      assert [bytes[0]] + bytes[1..] == bytes;
      if lineStart && bytes[0] == TILDE {
        assert typed[1..] == [TILDE] + rest && typed[1..][1..] == rest;
        assert [] + ([TILDE] + bytes[1..]) == bytes;
      } else {
        assert typed[1..] == rest;
      }
    }
  }

  /**
   Only a `~` typed last is held back, and the filter knows whether a line starts. A
   state that holds one back is at a line's start, and every state after it is like that.
   */
  lemma {:induction false} HeldBack(s: EscapeState, bytes: Bytes)
    requires !Filter(s, bytes).quit && (s.pending ==> s.lineStart)
    ensures var typed, next := Typed(s, bytes), Filter(s, bytes).next;
      && (next.pending ==> typed != [] && typed[|typed| - 1] == TILDE && next.lineStart)
      && (next.lineStart <==> if typed == [] then s.lineStart else EndsLine(typed[|typed| - 1]) || next.pending)
  {
    if s.pending {
      HeldIsTyped(s, bytes);
      HeldFrom(EscapeState(true, false), Typed(s, bytes));
    } else {
      HeldFrom(s, bytes);
    }
  }

  lemma {:induction false} HeldFrom(s: EscapeState, bytes: Bytes)
    requires !s.pending && !Filter(s, bytes).quit
    ensures Filter(s, bytes).next.pending ==> bytes != [] && bytes[|bytes| - 1] == TILDE
    ensures Filter(s, bytes).next.lineStart <==>
      if bytes == [] then s.lineStart else EndsLine(bytes[|bytes| - 1]) || Filter(s, bytes).next.pending
    decreases |bytes|
  {
    if bytes != [] {
      if s.lineStart && bytes[0] == TILDE {
        if |bytes| > 1 {
          assert bytes[1..] != [] && bytes[1..][0] != DOT;
          HeldFrom(EscapeState(EndsLine(bytes[1]), false), bytes[1..][1..]);
        } else {
          assert bytes[1..] == [];
        }
      } else {
        HeldFrom(EscapeState(EndsLine(bytes[0]), false), bytes[1..]);
      }
    }
  }

  /** A line starts with the escape twice. */
  predicate TwiceAt(bytes: Bytes, i: nat, lineStart: bool) {
    i + 1 < |bytes| && bytes[i] == TILDE && bytes[i + 1] == TILDE && AtLineStart(bytes, i, lineStart)
  }

  ghost predicate NoEscape(bytes: Bytes, lineStart: bool) {
    forall i :: 0 <= i < |bytes| ==> !QuitAt(bytes, i, lineStart) && !TwiceAt(bytes, i, lineStart)
  }

  lemma NoneLater(bytes: Bytes, lineStart: bool)
    requires bytes != [] && NoEscape(bytes, lineStart)
    ensures NoEscape(bytes[1..], EndsLine(bytes[0]))
  {
    forall i | 0 <= i < |bytes[1..]|
      ensures !QuitAt(bytes[1..], i, EndsLine(bytes[0])) && !TwiceAt(bytes[1..], i, EndsLine(bytes[0]))
    {
      assert !QuitAt(bytes, i + 1, lineStart) && !TwiceAt(bytes, i + 1, lineStart);
    }
  }

  lemma FilterFirst(s: EscapeState, bytes: Bytes)
    requires bytes != [] && OneByte(s, bytes[0]).Some?
    ensures var (sent, next) := OneByte(s, bytes[0]).value;
      var rest := Filter(next, bytes[1..]);
      Filter(s, bytes) == rest.(out := sent + rest.out)
  {
  }

  /** All of the bytes were sent, but for an escape held back at their end. */
  predicate AllSent(s: EscapeState, bytes: Bytes) {
    var sent := Filter(s, bytes);
    !sent.quit && sent.out + (if sent.next.pending then [TILDE] else []) == bytes
  }

  lemma OneSent(lineStart: bool, bytes: Bytes)
    requires bytes != [] && !(lineStart && bytes[0] == TILDE) && AllSent(EscapeState(EndsLine(bytes[0]), false), bytes[1..])
    ensures AllSent(EscapeState(lineStart, false), bytes)
  {
    FilterFirst(EscapeState(lineStart, false), bytes);
    hide Filter;
    assert [bytes[0]] + bytes[1..] == bytes;
  }

  lemma TwoSent(bytes: Bytes)
    requires |bytes| >= 2 && bytes[0] == TILDE && bytes[1] != TILDE && bytes[1] != DOT
    requires AllSent(EscapeState(EndsLine(bytes[1]), false), bytes[1..][1..])
    ensures AllSent(EscapeState(true, false), bytes)
  {
    FilterFirst(EscapeState(true, false), bytes);
    FilterFirst(EscapeState(true, true), bytes[1..]);
    hide Filter;
    var later := Filter(EscapeState(EndsLine(bytes[1]), false), bytes[1..][1..]);
    assert bytes == [TILDE, bytes[1]] + bytes[1..][1..];
    assert Filter(EscapeState(true, false), bytes).out == [] + ([TILDE, bytes[1]] + later.out) == [TILDE, bytes[1]] + later.out;
  }

  lemma HeldSent()
    ensures AllSent(EscapeState(true, false), [TILDE]) && forall s: EscapeState :: !s.pending ==> AllSent(s, [])
  {
    assert [TILDE][1..] == [];
  }

  /** What no line starts with the escape twice, or with it and a dot, is sent as it was typed, but for an escape held back at its end. */
  lemma {:induction false} PlainIsSent(bytes: Bytes, lineStart: bool)
    requires NoEscape(bytes, lineStart)
    ensures AllSent(EscapeState(lineStart, false), bytes)
    decreases |bytes|
  {
    hide AllSent;
    HeldSent();
    if bytes != [] {
      var rest := bytes[1..];
      NoneLater(bytes, lineStart);
      if lineStart && bytes[0] == TILDE {
        if rest == [] {
          assert bytes == [TILDE];
        } else {
          assert !QuitAt(bytes, 0, lineStart) && !TwiceAt(bytes, 0, lineStart);
          NoneLater(rest, false);
          PlainIsSent(rest[1..], EndsLine(rest[0]));
          TwoSent(bytes);
        }
      } else {
        PlainIsSent(rest, EndsLine(bytes[0]));
        OneSent(lineStart, bytes);
      }
    }
  }
}
