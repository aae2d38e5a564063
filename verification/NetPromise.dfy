/**
 The promise to the transport: `close` is never called on what it already reported
 closed. Only a sweep reads the reports, so a report not yet swept is not seen by
 what closes a Conn. Here is exactly when each step breaks the promise.
 */
module NetPromise {
  import opened Prelude
  import opened NetState
  import opened NetSafety
  import opened NetTheorems

  // ----- what a broken promise is -----

  /** The link of a Conn an entry was made for. */
  ghost predicate Placed(s: Net, c: Conn, key: nat) {
    c in s.log.holder && s.log.holder[c] in s.log.keyOf && key == s.log.keyOf[s.log.holder[c]]
  }

  /** The key of the link a Conn came with: of its entry, or of the arrival that brings it. */
  ghost predicate LinkOf(s: Net, c: Conn, key: nat) {
    || Placed(s, c, key)
    || exists i :: 0 <= i < |s.events| && Brought(s.events[i], c, key)
  }

  predicate Brought(ev: Event, c: Conn, key: nat) {
    ev.Accepted? && ev.conn == c && ev.key == key
  }

  /** Going from `s` to `t` calls `close` on `c`, whose link was reported closed before. */
  ghost predicate Breaks(s: Net, t: Net, c: Conn) {
    && c !in s.log.closes && c in t.log.closes
    && exists key :: LinkOf(s, c, key) && SaysClosed(Reports(s), key)
  }

  /** Likewise, where the Conn may be the answer to an `open` or `listen` of its own. */
  ghost predicate StepBreaks(s: Net, step: Step, c: Conn) {
    || Breaks(s, Next(s, step), c)
    || (step.SettleStep? && step.answer == Ok(c) && step.handle in s.log.keyOf
        && c in Next(s, step).log.closes && SaysClosed(Reports(s), s.log.keyOf[step.handle]))
  }

  // ----- the guards -----

  /** A live entry whose link's close is still in the inbox. */
  ghost predicate CutOff(s: Net, k: Slot, c: Conn) {
    && k in s.entries && s.entries[k].gone.None? && s.entries[k].conn == Some(c)
    && SaysClosed(s.events, s.entries[k].key)
  }

  /** The listener of an arrival is there, live, and has room. */
  ghost predicate Welcome(s: Net, ev: Event)
    requires ev.Accepted?
  {
    var l := SlotOf(s.entries, ev.listener);
    && l.Some? && s.entries[l.value].listener && s.entries[l.value].gone.None?
    && (s.entries[l.value].queue.None? ==> |WaitingUnder(s.entries, l.value.owner, l.value.handle)| < ACCEPT_BACKLOG)
  }

  /** A live entry that buffers, and whose buffer is full. */
  predicate Full(e: Entry) {
    e.gone.None? && e.queue.None? && |e.inbound| >= RECV_BACKLOG
  }

  /** The first event's routing closes `c`: an arrival turned away, or an overflow. */
  ghost predicate Strikes(s: Net, c: Conn)
    requires s.events != []
  {
    var ev := s.events[0];
    || (ev.Accepted? && ev.conn == c && !Welcome(s, ev))
    || (ev.Data? && SlotOf(s.entries, ev.key).Some?
        && Full(s.entries[SlotOf(s.entries, ev.key).value]) && s.entries[SlotOf(s.entries, ev.key).value].conn == Some(c))
  }

  /** And a close of the same link stands behind it in the inbox. */
  ghost predicate StrikesLate(s: Net, c: Conn) {
    s.events != [] && Strikes(s, c) && SaysClosed(s.events[1..], s.events[0].key)
  }

  /** The state once `i` events of the inbox are routed. */
  ghost function Routed(s: Net, i: nat): Net
    requires i <= |s.events|
    decreases i
  {
    if i == 0 then s else
      RouteKeepsEvents(s.(events := s.events[1..]), s.events[0]);
      Routed(RouteHead(s), i - 1)
  }

  ghost predicate SweepStrikes(s: Net, c: Conn) {
    exists i :: 0 <= i < |s.events| && StrikesLate(Routed(s, i), c)
  }

  predicate Sweeps(step: Step) {
    step.SweepStep? || step.AcceptStep? || step.RecvStep? || step.EndedStep? || step.NoticesStep?
  }

  /** When a step breaks the promise, read off the state before it. */
  ghost predicate Guard(s: Net, step: Step, c: Conn) {
    match step
    case CloseStep(caller, handle) =>
      && Mine(s, Slot(caller, handle))
      && exists k :: k in WaitingUnder(s.entries, caller, handle) + {Slot(caller, handle)} && CutOff(s, k, c)
    case ReleaseStep(owner) => exists k :: k in Owned(s.entries, owner) && CutOff(s, k, c)
    case DropStep => exists k :: k in s.entries.Keys && CutOff(s, k, c)
    case SettleStep(caller, handle, answer) =>
      && answer == Ok(c) && Slot(caller, handle) !in s.entries
      && handle in s.log.keyOf && SaysClosed(Reports(s), s.log.keyOf[handle])
    case _ => Sweeps(step) && SweepStrikes(s, c)
  }

  // ----- taking out of the table -----

  /** A live entry's link is reported closed exactly when the report is in the inbox. */
  lemma {:induction false} LiveUnseen(s: Net, k: Slot)
    requires Tidy(s) && k in s.entries && s.entries[k].gone.None?
    ensures SaysClosed(Reports(s), s.entries[k].key) <==> SaysClosed(s.events, s.entries[k].key)
  {
    assert TidyEntry(s, s.entries[k]);
    SaysClosedSplit(s.log.processed, s.events, s.entries[k].key);
  }

  lemma {:induction false} EntryLink(s: Net, k: Slot, c: Conn, key: nat)
    requires Numbered(s) && ConnsPlaced(s) && k in s.entries && s.entries[k].conn == Some(c)
    ensures LinkOf(s, c, key) <==> key == s.entries[k].key
  {
  }

  /** Taking slots back breaks the promise exactly for those of them cut off. */
  lemma {:induction false} TakeBackBreaks(s: Net, t: Net, S: set<Slot>, c: Conn)
    requires Inv(s) && S <= s.entries.Keys
    requires forall x :: x in t.log.closes <==> x in s.log.closes || exists k :: k in S && Holding(s, k, x)
    ensures Breaks(s, t, c) <==> exists k :: k in S && CutOff(s, k, c)
  {
    assert Numbered(s) && Tidy(s) && ConnsPlaced(s) && ClosedHeld(s);
    hide Inv, Numbered, Tidy, ConnsPlaced, ClosedHeld, LinkOf;
    if k :| k in S && CutOff(s, k, c) {
      assert Holding(s, k, c);
      EntryLink(s, k, c, s.entries[k].key);
      LiveUnseen(s, k);
      LiveUnclosed(s, k, c);
    }
    if Breaks(s, t, c) {
      var k :| k in S && Holding(s, k, c);
      var key :| LinkOf(s, c, key) && SaysClosed(Reports(s), key);
      EntryLink(s, k, c, key);
      LiveUnseen(s, k);
      assert CutOff(s, k, c);
    }
  }

  predicate Holding(s: Net, k: Slot, c: Conn) {
    k in s.entries && s.entries[k].gone.None? && s.entries[k].conn == Some(c)
  }

  lemma LiveUnclosed(s: Net, k: Slot, c: Conn)
    requires ClosedHeld(s) && Holding(s, k, c)
    ensures c !in s.log.closes
  {
  }

  /** The Conns taking slots back closes are those the slots hold. */
  lemma {:induction false} TakeBackCloses(s: Net, S: set<Slot>, x: Conn)
    requires S <= s.entries.Keys
    ensures x in TakeBack(s, S).log.closes <==> x in s.log.closes || exists k :: k in S && Holding(s, k, x)
  {
    var cs := ConnsToClose(s.entries, Ascending(S));
    ToCloseExact(s.entries, Ascending(S));
    assert forall k :: k in S && s.entries[k].gone.None? && s.entries[k].conn == Some(x) ==> Holding(s, k, x);
    assert x in s.log.closes + cs <==> x in s.log.closes || x in cs;
  }

  lemma CloseTakesBack(s: Net, caller: Caller, handle: nat)
    requires Mine(s, Slot(caller, handle))
    ensures var k := Slot(caller, handle);
      var s1 := TakeBack(s, WaitingUnder(s.entries, caller, handle));
      k in s1.entries && s1.entries[k] == s.entries[k] && Close(s, caller, handle).0.log.closes == TakeBack(s1, {k}).log.closes
  {
  }

  lemma {:induction false} CloseCloses(s: Net, caller: Caller, handle: nat, x: Conn)
    requires Mine(s, Slot(caller, handle))
    ensures x in Close(s, caller, handle).0.log.closes
       <==> x in s.log.closes
            || exists k :: k in WaitingUnder(s.entries, caller, handle) + {Slot(caller, handle)} && Holding(s, k, x)
  {
    var k := Slot(caller, handle);
    var W := WaitingUnder(s.entries, caller, handle);
    var s1 := TakeBack(s, W);
    CloseTakesBack(s, caller, handle);
    TakeBackCloses(s, W, x);
    TakeBackCloses(s1, {k}, x);
    hide Close, TakeBack, WaitingUnder;
    assert k in W + {k};
    assert Holding(s1, k, x) <==> Holding(s, k, x);
    if j :| j in {k} && Holding(s1, j, x) {
      assert j == k;
    }
    if Holding(s, k, x) {
      assert k in {k} && Holding(s1, k, x);
    }
  }

  // ----- routing -----

  /** What routing the first event closes. */
  ghost function HeadCloses(s: Net): seq<Conn>
    requires s.events != []
  {
    var ev := s.events[0];
    var k := SlotOf(s.entries, ev.key);
    if ev.Accepted? then (if Welcome(s, ev) then [] else [ev.conn])
    else if ev.Data? && k.Some? && Full(s.entries[k.value]) && s.entries[k.value].conn.Some? then [s.entries[k.value].conn.value]
    else []
  }

  lemma {:induction false} RouteCloses(s: Net)
    requires s.events != []
    ensures RouteHead(s).log.closes == s.log.closes + HeadCloses(s)
    ensures forall c :: c in HeadCloses(s) <==> Strikes(s, c)
  {
    var u := s.(events := s.events[1..]);
    var ev := s.events[0];
    assert s.log.closes + [] == s.log.closes;
    match ev
    case Accepted(_, listener, _, _) =>
      var l := SlotOf(s.entries, listener);
      if l.Some? { AcceptedCloses(u, l.value, ev); }
    case Data(key, data) =>
      var k := SlotOf(s.entries, key);
      if k.Some? { DataCloses(u, k.value, data); }
    case Closed(key, reason) =>
      var k := SlotOf(s.entries, key);
      if k.Some? { assert RouteClosed(u, k.value, reason).log.closes == u.log.closes; }
  }

  lemma AcceptedCloses(s: Net, l: Slot, ev: Event)
    requires l in s.entries && ev.Accepted?
    ensures var e := s.entries[l];
      var welcome := e.listener && e.gone.None? && (e.queue.None? ==> |WaitingUnder(s.entries, l.owner, l.handle)| < ACCEPT_BACKLOG);
      RouteAccepted(s, l, ev).log.closes == s.log.closes + if welcome then [] else [ev.conn]
  {
  }

  lemma DataCloses(s: Net, k: Slot, data: Bytes)
    requires k in s.entries
    ensures var e := s.entries[k];
      RouteData(s, k, data).log.closes == s.log.closes + if Full(e) && e.conn.Some? then [e.conn.value] else []
  {
    assert s.log.closes + [] == s.log.closes;
  }

  /** A Conn the first event closes breaks the promise exactly when its close stands behind. */
  lemma {:induction false} HeadBreaks(s: Net, c: Conn)
    requires Inv(s) && s.events != [] && Strikes(s, c)
    ensures c !in s.log.closes
    ensures (exists key :: LinkOf(s, c, key) && SaysClosed(Reports(s), key)) <==> StrikesLate(s, c)
  {
    var ev := s.events[0];
    assert Numbered(s) && InOrder(s) && Tidy(s) && ConnsPlaced(s) && ClosedRightly(s);
    hide Inv, Numbered, InOrder, Tidy, ConnsPlaced, ClosedRightly;
    if ev.Accepted? {
      ArrivalBreaks(s, c);
    } else {
      OverflowBreaks(s, c);
    }
  }

  lemma BehindHead(s: Net, key: nat)
    requires s.events != [] && !SaysClosed(s.log.processed, key) && !s.events[0].Closed?
    ensures SaysClosed(Reports(s), key) <==> SaysClosed(s.events[1..], key)
  {
    SaysClosedSplit(s.log.processed, s.events, key);
    assert s.events == [s.events[0]] + s.events[1..];
    SaysClosedSplit([s.events[0]], s.events[1..], key);
  }

  lemma {:induction false} ArrivalBreaks(s: Net, c: Conn)
    requires InOrder(s) && ConnsPlaced(s) && ClosedRightly(s) && s.events != [] && s.events[0].Accepted? && Strikes(s, c)
    ensures c !in s.log.closes
    ensures (exists key :: LinkOf(s, c, key) && SaysClosed(Reports(s), key)) <==> StrikesLate(s, c)
  {
    var ev := s.events[0];
    HeadIsFresh(s);
    BehindHead(s, ev.key);
    assert ArrivalPending(s, c);
    assert Brought(s.events[0], c, ev.key);
    forall key | LinkOf(s, c, key)
      ensures key == ev.key
    {
      assert c !in s.log.holder;
    }
  }

  lemma {:induction false} OverflowBreaks(s: Net, c: Conn)
    requires Numbered(s) && Tidy(s) && ConnsPlaced(s) && ClosedRightly(s)
    requires s.events != [] && s.events[0].Data? && Strikes(s, c)
    ensures c !in s.log.closes
    ensures (exists key :: LinkOf(s, c, key) && SaysClosed(Reports(s), key)) <==> StrikesLate(s, c)
  {
    var k := SlotOf(s.entries, s.events[0].key).value;
    assert TidyEntry(s, s.entries[k]);
    BehindHead(s, s.entries[k].key);
    LiveUnclosed(s, k, c);
    forall key
      ensures LinkOf(s, c, key) <==> key == s.entries[k].key
    {
      EntryLink(s, k, c, key);
    }
  }

  /** The inbox's arrivals past the head are those of the rest. */
  lemma {:induction false} BroughtBehind(s: Net, t: Net, c: Conn, key: nat)
    requires s.events != [] && t.events == s.events[1..]
    ensures (exists i :: 0 <= i < |s.events| && Brought(s.events[i], c, key))
       <==> Brought(s.events[0], c, key) || exists i :: 0 <= i < |t.events| && Brought(t.events[i], c, key)
  {
    if j :| 0 <= j < |s.events| && Brought(s.events[j], c, key) {
      assert j > 0 ==> t.events[j - 1] == s.events[j];
    }
    if j :| 0 <= j < |t.events| && Brought(t.events[j], c, key) {
      assert Brought(s.events[j + 1], c, key);
    }
  }

  lemma {:induction false} PlacedMoves(s: Net, c: Conn, key: nat)
    requires Inv(s) && s.events != []
    ensures Placed(RouteHead(s), c, key)
       <==> Placed(s, c, key) || (s.events[0].Accepted? && Welcome(s, s.events[0]) && Brought(s.events[0], c, key))
  {
    NotPlacedYet(s);
    hide Inv, RouteHead, Welcome;
    RoutePlaces(s);
  }

  /** Routing an event moves a Conn's link from the arrival to its entry, and no other. */
  lemma {:induction false} LinkStays(s: Net, c: Conn, key: nat)
    requires Inv(s) && s.events != [] && !Strikes(s, c)
    ensures LinkOf(RouteHead(s), c, key) <==> LinkOf(s, c, key)
  {
    hide Inv, RouteHead, Welcome, Reports, Placed;
    HeadReports(s);
    PlacedMoves(s, c, key);
    BroughtBehind(s, RouteHead(s), c, key);
  }

  /** What an arrival taken in adds; other events add nothing. */
  lemma {:induction false} RoutePlaces(s: Net)
    requires s.events != []
    ensures var t := RouteHead(s);
      var ev := s.events[0];
      if ev.Accepted? && Welcome(s, ev)
      then t.log.holder == s.log.holder[ev.conn := s.nextHandle] && t.log.keyOf == s.log.keyOf[s.nextHandle := ev.key]
      else t.log.holder == s.log.holder && t.log.keyOf == s.log.keyOf
  {
    var u := s.(events := s.events[1..]);
    var ev := s.events[0];
    match ev
    case Accepted(_, listener, _, _) =>
      var l := SlotOf(s.entries, listener);
      if l.Some? { AcceptedPlaces(u, l.value, ev); }
    case Data(key, data) =>
      var k := SlotOf(s.entries, key);
      if k.Some? { DataPlaces(u, k.value, data); }
    case Closed(key, reason) =>
      var k := SlotOf(s.entries, key);
      if k.Some? { ClosedPlaces(u, k.value, reason); }
  }

  lemma DataPlaces(s: Net, k: Slot, data: Bytes)
    requires k in s.entries
    ensures var t := RouteData(s, k, data);
      t.log.holder == s.log.holder && t.log.keyOf == s.log.keyOf
  {
  }

  lemma ClosedPlaces(s: Net, k: Slot, reason: Option<string>)
    requires k in s.entries
    ensures var t := RouteClosed(s, k, reason);
      t.log.holder == s.log.holder && t.log.keyOf == s.log.keyOf
  {
  }

  /** A handle about to be issued has no key yet, and a pending arrival no holder. */
  lemma NotPlacedYet(s: Net)
    requires Numbered(s) && ConnsPlaced(s) && s.events != []
    ensures s.nextHandle !in s.log.keyOf
    ensures s.events[0].Accepted? ==> s.events[0].conn !in s.log.holder
    ensures forall c :: c in s.log.holder ==> s.log.holder[c] in s.log.keyOf
  {
  }

  lemma AcceptedPlaces(s: Net, l: Slot, ev: Event)
    requires l in s.entries && ev.Accepted?
    ensures var e := s.entries[l];
      var welcome := e.listener && e.gone.None? && (e.queue.None? ==> |WaitingUnder(s.entries, l.owner, l.handle)| < ACCEPT_BACKLOG);
      var t := RouteAccepted(s, l, ev);
      if welcome then t.log.holder == s.log.holder[ev.conn := s.nextHandle] && t.log.keyOf == s.log.keyOf[s.nextHandle := ev.key]
      else t.log.holder == s.log.holder && t.log.keyOf == s.log.keyOf
  {
  }

  lemma {:induction false} ClosesGrow(s: Net)
    ensures forall c :: c in s.log.closes ==> c in Sweep(s).log.closes
    decreases |s.events|
  {
    if s.events != [] {
      RouteCloses(s);
      HeadReports(s);
      ClosesGrow(RouteHead(s));
    }
  }

  lemma {:induction false} ClosedNotStruck(s: Net, c: Conn)
    requires Inv(s) && s.events != [] && c in s.log.closes
    ensures !StrikesLate(s, c)
  {
    hide Inv, LinkOf, Reports, SaysClosed, Strikes;
    if Strikes(s, c) {
      HeadBreaks(s, c);
    }
  }

  lemma {:induction false} RoutedKeepsClosed(s: Net, c: Conn, i: nat)
    requires Inv(s) && i < |s.events| && c in s.log.closes
    ensures !StrikesLate(Routed(s, i), c)
    decreases i
  {
    hide RouteHead, Inv, StrikesLate, HeadCloses, Strikes;
    if i == 0 {
      ClosedNotStruck(s, c);
    } else {
      RouteInv(s);
      RouteCloses(s);
      HeadReports(s);
      assert Routed(s, i) == Routed(RouteHead(s), i - 1);
      RoutedKeepsClosed(RouteHead(s), c, i - 1);
    }
  }

  lemma {:induction false} SweepBreaks(s: Net, c: Conn)
    requires Inv(s)
    ensures Breaks(s, Sweep(s), c) <==> SweepStrikes(s, c)
    decreases |s.events|
  {
    if s.events != [] {
      var t := RouteHead(s);
      RouteInv(s);
      RouteCloses(s);
      HeadReports(s);
      assert Sweep(s) == Sweep(t);
      SweepUnfolds(s, c);
      hide Inv, Sweep, RouteHead, SweepStrikes, Strikes;
      if Strikes(s, c) {
        HeadBreaks(s, c);
        ClosesGrow(t);
        assert c in t.log.closes;
        NeverStruckAgain(t, c);
      } else {
        SweepBreaks(t, c);
        forall key
          ensures LinkOf(t, c, key) <==> LinkOf(s, c, key)
        {
          LinkStays(s, c, key);
        }
        assert c in t.log.closes <==> c in s.log.closes;
      }
    }
  }

  lemma {:induction false} NeverStruckAgain(s: Net, c: Conn)
    requires Inv(s) && c in s.log.closes
    ensures !SweepStrikes(s, c)
  {
    hide Inv, StrikesLate;
    forall i | 0 <= i < |s.events|
      ensures !StrikesLate(Routed(s, i), c)
    {
      RoutedKeepsClosed(s, c, i);
    }
  }

  lemma {:induction false} SweepUnfolds(s: Net, c: Conn)
    requires s.events != []
    ensures SweepStrikes(s, c) <==> StrikesLate(s, c) || SweepStrikes(RouteHead(s), c)
  {
    var t := RouteHead(s);
    HeadReports(s);
    hide StrikesLate, RouteHead;
    assert Routed(s, 0) == s;
    if i :| 0 <= i < |s.events| && StrikesLate(Routed(s, i), c) {
      if i > 0 {
        assert Routed(s, i) == Routed(t, i - 1);
      }
    }
    if i :| 0 <= i < |t.events| && StrikesLate(Routed(t, i), c) {
      assert Routed(s, i + 1) == Routed(t, i);
    }
  }

  // ----- every step -----

  /** A step breaks the promise for a Conn exactly when its guard holds of the state before. */
  lemma {:induction false} PromiseBrokenExactly(s: Net, step: Step, c: Conn)
    requires Reachable(s) && Possible(s, step)
    ensures StepBreaks(s, step, c) <==> Guard(s, step, c)
  {
    ReachableInv(s);
    if Sweeps(step) {
      SweepingBreaks(s, step, c);
    } else if step.CloseStep? {
      CloseBreaks(s, step.caller, step.handle, c);
    } else if step.ReleaseStep? {
      ReleaseBreaks(s, step.caller, c);
    } else if step.DropStep? {
      DropBrokenExactly(s, c);
    } else if step.SettleStep? {
      SettleBreaks(s, step.caller, step.handle, step.answer, c);
    } else {
      QuietBreaks(s, step, c);
    }
  }

  /** Dropping the connector breaks it for every live entry whose close was not swept. */
  lemma {:induction false} DropBrokenExactly(s: Net, c: Conn)
    requires Reachable(s)
    ensures Breaks(s, Dropped(s), c) <==> exists k :: k in s.entries.Keys && CutOff(s, k, c)
  {
    ReachableInv(s);
    forall x
      ensures x in Dropped(s).log.closes <==> x in s.log.closes || exists k :: k in s.entries.Keys && Holding(s, k, x)
    {
      TakeBackCloses(s, s.entries.Keys, x);
    }
    hide Dropped;
    TakeBackBreaks(s, Dropped(s), s.entries.Keys, c);
  }

  lemma {:induction false} SweepingBreaks(s: Net, step: Step, c: Conn)
    requires Inv(s) && Sweeps(step)
    ensures StepBreaks(s, step, c) <==> Guard(s, step, c)
  {
    SweepBreaks(s, c);
    SweepingCloses(s, step);
    hide Next, Sweep, SweepStrikes, Inv;
  }

  lemma {:induction false} SweepingCloses(s: Net, step: Step)
    requires Sweeps(step)
    ensures Next(s, step).log.closes == Sweep(s).log.closes
  {
    hide Sweep;
    match step
    case AcceptStep(caller, handle, queue, vital) => AcceptClosesNothing(Sweep(s), caller, handle, queue, vital);
    case RecvStep(caller, handle) => RecvClosesNothing(Sweep(s), caller, handle);
    case _ =>
  }

  lemma AcceptClosesNothing(s: Net, caller: Caller, listener: nat, queue: Option<string>, vital: bool)
    ensures AcceptLook(s, caller, listener, queue, vital).0.log.closes == s.log.closes
  {
  }

  lemma RecvClosesNothing(s: Net, caller: Caller, handle: nat)
    ensures RecvLook(s, caller, handle).0.log.closes == s.log.closes
  {
  }

  /** Steps that neither sweep nor take back close nothing. */
  lemma {:induction false} QuietBreaks(s: Net, step: Step, c: Conn)
    requires !Sweeps(step) && !step.CloseStep? && !step.ReleaseStep? && !step.DropStep? && !step.SettleStep?
    ensures StepBreaks(s, step, c) <==> Guard(s, step, c)
  {
    hide LinkOf;
    assert Next(s, step).log.closes == s.log.closes;
  }

  lemma {:induction false} CloseBreaks(s: Net, caller: Caller, handle: nat, c: Conn)
    requires Inv(s)
    ensures StepBreaks(s, CloseStep(caller, handle), c) <==> Guard(s, CloseStep(caller, handle), c)
  {
    var k := Slot(caller, handle);
    var t := Close(s, caller, handle).0;
    hide Inv, LinkOf, Breaks, CutOff, SaysClosed, Holding, Close, WaitingUnder;
    assert StepBreaks(s, CloseStep(caller, handle), c) <==> Breaks(s, t, c);
    if Mine(s, k) {
      var S := WaitingUnder(s.entries, caller, handle) + {k};
      forall x
        ensures x in t.log.closes <==> x in s.log.closes || exists j :: j in S && Holding(s, j, x)
      {
        CloseCloses(s, caller, handle, x);
      }
      WaitingThere(s, caller, handle);
      TakeBackBreaks(s, t, S, c);
    } else {
      CloseRefused(s, caller, handle);
      NoneBroken(s, c);
    }
  }

  lemma WaitingThere(s: Net, owner: Caller, listener: nat)
    ensures WaitingUnder(s.entries, owner, listener) <= s.entries.Keys
  {
  }

  lemma NoneBroken(s: Net, c: Conn)
    ensures !Breaks(s, s, c)
  {
    hide LinkOf;
  }

  lemma CloseRefused(s: Net, caller: Caller, handle: nat)
    requires !Mine(s, Slot(caller, handle))
    ensures Close(s, caller, handle).0 == s
  {
  }

  lemma {:induction false} ReleaseBreaks(s: Net, owner: Caller, c: Conn)
    requires Inv(s)
    ensures StepBreaks(s, ReleaseStep(owner), c) <==> Guard(s, ReleaseStep(owner), c)
  {
    var t := Release(s, owner).0;
    hide Inv, LinkOf, Breaks, CutOff, SaysClosed, Holding;
    assert StepBreaks(s, ReleaseStep(owner), c) <==> Breaks(s, t, c);
    forall x
      ensures x in t.log.closes <==> x in s.log.closes || exists k :: k in Owned(s.entries, owner) && Holding(s, k, x)
    {
      TakeBackCloses(s, Owned(s.entries, owner), x);
    }
    hide Release;
    TakeBackBreaks(s, t, Owned(s.entries, owner), c);
  }

  lemma {:induction false} SettleBreaks(s: Net, caller: Caller, handle: nat, answer: Result<Conn, string>, c: Conn)
    requires Inv(s) && Possible(s, SettleStep(caller, handle, answer))
    ensures StepBreaks(s, SettleStep(caller, handle, answer), c) <==> Guard(s, SettleStep(caller, handle, answer), c)
  {
    assert ConnsPlaced(s) && ClosedOnce(s);
    hide Inv, Numbered, InOrder, Tidy, Conserved, MarksKept, ClosedHeld, ClosedLeft, ClosedUnheld, OffersStand, BacklogsBounded;
    var step := SettleStep(caller, handle, answer);
    var t := Next(s, step);
    match answer
    case Err(_) => assert t.log.closes == s.log.closes;
    case Ok(conn) =>
      assert conn !in s.log.seen && conn !in s.log.holder && conn !in s.log.closes;
      assert t.log.closes == if Slot(caller, handle) in s.entries then s.log.closes else s.log.closes + [conn];
      forall key
        ensures !LinkOf(s, conn, key)
      {
      }
  }

  // ----- runs that break it -----

  /** A release closes the Conn of a link whose close it never swept. */
  lemma ReleaseFollowsAReport()
    ensures exists s :: Reachable(s) && StepBreaks(s, ReleaseStep(Node(1)), 7)
  {
    var s := OpenedThenClosed();
    assert CutOff(s, Slot(Node(1), 1), 7) && Slot(Node(1), 1) in Owned(s.entries, Node(1));
    PromiseBrokenExactly(s, ReleaseStep(Node(1)), 7);
  }

  /** So does dropping the connector. */
  lemma DropFollowsAReport()
    ensures exists s :: Reachable(s) && Possible(s, DropStep) && StepBreaks(s, DropStep, 7)
  {
    var s := OpenedThenClosed();
    assert CutOff(s, Slot(Node(1), 1), 7);
    PromiseBrokenExactly(s, DropStep, 7);
  }

  /** `open` answered after its owner was released and its link reported closed. */
  lemma AnswerFollowsAReport()
    ensures exists s :: Reachable(s) && Possible(s, SettleStep(Node(1), 1, Ok(7)))
                     && StepBreaks(s, SettleStep(Node(1), 1, Ok(7)), 7)
  {
    var s := ReleasedThenClosed();
    PromiseBrokenExactly(s, SettleStep(Node(1), 1, Ok(7)), 7);
  }

  lemma ReleasedThenClosed() returns (s: Net)
    ensures Reachable(s) && Guard(s, SettleStep(Node(1), 1, Ok(7)), 7) && Possible(s, SettleStep(Node(1), 1, Ok(7)))
  {
    hide Reachable;
    ReachableFresh();
    ReachableNext(Fresh, OpenStep(Node(1), "b", None, false));
    var s1 := BeginOpen(Fresh, Node(1), "b", None, false);
    ReachableNext(s1, ReleaseStep(Node(1)));
    var s2 := Release(s1, Node(1)).0;
    assert Slot(Node(1), 1) in Owned(s1.entries, Node(1));
    assert s2.log.keyOf == map[1 := 1] && s2.log.opening == {Slot(Node(1), 1)} && s2.log.seen == {};
    assert Slot(Node(1), 1) !in s2.entries && s2.events == [] && s2.nextKey == 2;
    hide Release, BeginOpen;
    s := Report(s2, Closed(1, None));
    ReachableNext(s2, ReportStep(Closed(1, None)));
    assert s.events[0] == Closed(1, None) && Reports(s)[0] == s.events[0];
  }

  /** A listener's owner goes, and a sweep turns away an arrival whose close already stands behind it. */
  lemma SweepFollowsAReport()
    ensures exists s :: Reachable(s) && Possible(s, SweepStep) && StepBreaks(s, SweepStep, 9)
  {
    var s := ArrivedThenClosed();
    assert StrikesLate(Routed(s, 0), 9);
    hide StrikesLate;
    PromiseBrokenExactly(s, SweepStep, 9);
  }

  lemma ArrivedThenClosed() returns (s: Net)
    ensures Reachable(s) && Possible(s, SweepStep) && StrikesLate(s, 9)
  {
    hide Reachable;
    var s1 := ListenedThenArrived();
    ReachableNext(s1, ReleaseStep(Node(1)));
    var s2 := Release(s1, Node(1)).0;
    assert Owned(s1.entries, Node(1)) == s1.entries.Keys;
    assert s2.entries == map[] && s2.events == s1.events && s2.nextKey == 3 && !s2.log.dropped;
    hide Release, Owned;
    s := Report(s2, Closed(2, None));
    ReachableNext(s2, ReportStep(Closed(2, None)));
    assert s.events[1..] == [Closed(2, None)] && s.events[1..][0] == Closed(2, None);
  }

  lemma OpenedThenClosed() returns (s: Net)
    ensures Reachable(s) && !s.log.dropped && CutOff(s, Slot(Node(1), 1), 7)
  {
    ReachableFresh();
    ReachableNext(Fresh, OpenStep(Node(1), "b", None, false));
    var s1 := BeginOpen(Fresh, Node(1), "b", None, false);
    ReachableNext(s1, SettleStep(Node(1), 1, Ok(7)));
    var s2 := Settle(s1, Node(1), 1, Ok(7));
    ReachableNext(s2, ReportStep(Closed(1, None)));
    s := Report(s2, Closed(1, None));
    assert s.events[0] == Closed(1, None);
  }
}
