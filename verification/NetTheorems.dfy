/** What the invariant of `NetSafety` means to the owners and to the transport. */
module NetTheorems {
  import opened Prelude
  import opened NetState
  import opened NetSafety

  /** A state some run of the connector reaches. */
  ghost predicate Reachable(s: Net) {
    exists steps :: Runs(Fresh, steps) && s == After(Fresh, steps)
  }

  lemma {:induction false} ReachableInv(s: Net)
    requires Reachable(s)
    ensures Inv(s)
  {
    InvFresh();
    var steps :| Runs(Fresh, steps) && s == After(Fresh, steps);
    EveryRunKeepsInv(Fresh, steps);
  }

  lemma ReachableFresh()
    ensures Reachable(Fresh)
  {
    assert Runs(Fresh, []) && After(Fresh, []) == Fresh;
  }

  lemma {:induction false} ReachableNext(s: Net, step: Step)
    requires Reachable(s) && Possible(s, step)
    ensures Reachable(Next(s, step))
  {
    var steps :| Runs(Fresh, steps) && s == After(Fresh, steps);
    hide Next, Possible;
    OneMore(Fresh, steps, step);
  }

  lemma {:induction false} OneMore(s: Net, steps: seq<Step>, step: Step)
    requires Runs(s, steps) && Possible(After(s, steps), step)
    ensures Runs(s, steps + [step]) && After(s, steps + [step]) == Next(After(s, steps), step)
    decreases |steps|
  {
    hide Next, Possible;
    var all := steps + [step];
    if steps == [] {
      assert all == [step] && all[1..] == [];
      assert After(Next(s, step), []) == Next(s, step) && Runs(Next(s, step), []);
    } else {
      assert all[1..] == steps[1..] + [step];
      OneMore(Next(s, steps[0]), steps[1..], step);
    }
  }

  // ----- data -----

  /**
   Nothing is lost, repeated or reordered: what an owner was given, then the
   buffer, then the inbox, is what the transport reported. Once the connection is
   gone, what was given and is buffered is what was reported before the event that
   ended it: the far end's close, or the data that found its buffer full.
   */
  lemma {:induction false} NothingLostOrReordered(s: Net, k: Slot)
    requires Reachable(s) && k in s.entries
    ensures s.entries[k].gone.None? ==>
      Seen(s, k) + DataOf(s.events, s.entries[k].key) == DataOf(Reports(s), s.entries[k].key)
    ensures s.entries[k].gone.Some? ==> exists n: nat :: EndedAt(s, k, n)
    ensures s.entries[k].gone.Some? && k.handle in s.log.farGone ==>
      Seen(s, k) == DataOf(BeforeClose(Reports(s), s.entries[k].key), s.entries[k].key)
  {
    ReachableInv(s);
    assert ConservedAt(s, k);
    DataAppend(s.log.processed, s.events, s.entries[k].key);
    if s.entries[k].gone.Some? && k.handle in s.log.farGone {
      var n: nat :| EndedAt(s, k, n);
      assert Reports(s)[..n] == s.log.processed[..n];
      BeforeCloseIs(Reports(s), s.entries[k].key, n);
    }
  }

  lemma {:induction false} GivenStaysAPrefix(s: Net, handle: nat)
    requires Reachable(s) && handle in s.log.keyOf
    ensures HandedTo(s.log.handed, handle) <= DataOf(Reports(s), s.log.keyOf[handle])
  {
    ReachableInv(s);
    DataAppend(s.log.processed, s.events, s.log.keyOf[handle]);
  }

  /**
   `recv` says eof once everything is read: after the far end's close, all that was
   reported before it; after an overflow, all that was reported before the message
   that found the buffer full.
   */
  lemma {:induction false} EofIsTheEnd(s: Net, caller: Caller, handle: nat, why: Option<string>)
    requires Reachable(s) && Recv(s, caller, handle).1 == Ready(Ok(Eof(why)))
    ensures var t := Recv(s, caller, handle).0;
      var k := Slot(caller, handle);
      && k in t.entries && t.entries[k].gone == Some(why)
      && var given, key := HandedTo(t.log.handed, handle), t.entries[k].key;
        && (handle in t.log.farGone ==>
              SaysClosed(Reports(s), key) && given == DataOf(BeforeClose(Reports(s), key), key))
        && (handle !in t.log.farGone ==> exists n: nat ::
              n < |Reports(s)| && EndedAt(t, k, n) && given == DataOf(Reports(s)[..n], key) && |given| >= RECV_BACKLOG)
  {
    hide Reachable, Inv, Sweep, RecvLook;
    ReachableInv(s);
    SweepInv(s);
    SweepReports(s);
    var t := Sweep(s);
    EofEnded(t, caller, handle, why);
    var k := Slot(caller, handle);
    var n: nat :| EndedAt(t, k, n);
    assert t.log.processed[..n] == Reports(s)[..n] && Reports(t) == t.log.processed;
    if handle in t.log.farGone {
      BeforeCloseIs(Reports(s), t.entries[k].key, n);
      assert Reports(s)[n].Closed?;
    }
  }

  lemma {:induction false} EofEnded(t: Net, caller: Caller, handle: nat, why: Option<string>)
    requires Inv(t) && RecvLook(t, caller, handle).1 == Ready(Ok(Eof(why)))
    ensures var k := Slot(caller, handle);
      && RecvLook(t, caller, handle).0 == t
      && k in t.entries && t.entries[k].gone == Some(why) && HandedTo(t.log.handed, handle) == Seen(t, k)
      && exists n: nat :: EndedAt(t, k, n)
  {
    var k := Slot(caller, handle);
    assert ConservedAt(t, k);
    assert HandedTo(t.log.handed, handle) + [] == HandedTo(t.log.handed, handle);
  }

  lemma {:induction false} SweepReports(s: Net)
    ensures Reports(Sweep(s)) == Reports(s) && Sweep(s).events == []
    decreases |s.events|
  {
    if s.events != [] {
      HeadReports(s);
      SweepReports(RouteHead(s));
    }
  }

  /** A buffer never passes its bound, and neither does an accept backlog. */
  lemma {:induction false} BacklogsHold(s: Net, k: Slot, listener: nat)
    requires Reachable(s)
    ensures k in s.entries ==> |s.entries[k].inbound| <= 1024
    ensures |WaitingUnder(s.entries, k.owner, listener)| <= 64
  {
    ReachableInv(s);
    assert k in s.entries ==> TidyEntry(s, s.entries[k]);
  }

  /** `accept` takes the oldest connection waiting under the listener. */
  lemma {:induction false} AcceptTakesTheOldest(s: Net, caller: Caller, listener: nat, queue: Option<string>, vital: bool, h: nat, peer: string)
    requires Reachable(s) && Accept(s, caller, listener, queue, vital).1 == Ready(Ok((h, peer)))
    ensures var u := Sweep(s);
      && Slot(caller, h) in WaitingUnder(u.entries, caller, listener)
      && (forall k :: k in WaitingUnder(u.entries, caller, listener) ==> h <= k.handle)
      && Mine(Accept(s, caller, listener, queue, vital).0, Slot(caller, h))
  {
    var u := Sweep(s);
    var w := Ascending(WaitingUnder(u.entries, caller, listener));
    AscendingInOrder(WaitingUnder(u.entries, caller, listener));
    assert w[0] in w && w[0].handle == h;
    forall k | k in WaitingUnder(u.entries, caller, listener)
      ensures h <= k.handle
    {
      assert k in w;
      var i :| 0 <= i < |w| && w[i] == k;
      assert i > 0 ==> Before(w[0], w[i]);
    }
  }

  // ----- closing -----

  /**
   A Conn is closed at most once. One put into an entry is closed exactly when that
   left the table or overflowed without being spared; any other Conn the transport
   gave exactly when the news of it is no longer in the inbox.
   */
  lemma {:induction false} ClosedExactly(s: Net, c: Conn)
    requires Reachable(s)
    ensures multiset(s.log.closes)[c] <= 1
    ensures c in s.log.holder ==>
      var h := s.log.holder[c];
      (c in s.log.closes
       <==> h !in s.log.farGone && h !in s.log.stranded
            && !(exists k :: k in s.entries && k.handle == h && s.entries[k].gone.None?))
    ensures c !in s.log.holder ==> (c in s.log.closes <==> c in s.log.seen && !ArrivalPending(s, c))
  {
    ReachableInv(s);
    DistinctCounts(s.log.closes, c);
    if c in s.log.holder {
      var h := s.log.holder[c];
      if k :| k in s.entries && k.handle == h {
        assert s.entries[k].conn == Some(c);
        assert s.entries[k].conn.value in s.log.closes <==> s.entries[k].gone.Some? && !Spared(s, k.handle);
      } else {
        assert !Held(s, h);
      }
    }
  }

  lemma {:induction false} DistinctCounts(s: seq<Conn>, c: Conn)
    requires Distinct(s)
    ensures multiset(s)[c] <= 1
  {
    if s != [] {
      var n := |s| - 1;
      DistinctCounts(s[..n], c);
      assert s == s[..n] + [s[n]];
      if s[n] == c {
        forall i | 0 <= i < n
          ensures s[..n][i] != c
        {
        }
        assert c !in s[..n];
      }
    }
  }

  lemma {:induction false} SweepKeepsEntries(s: Net)
    ensures s.entries.Keys <= Sweep(s).entries.Keys
    decreases |s.events|
  {
    if s.events != [] {
      var u := s.(events := s.events[1..]);
      RouteKeepsEvents(u, s.events[0]);
      assert u.entries.Keys <= Route(u, s.events[0]).entries.Keys;
      SweepKeepsEntries(RouteHead(s));
    }
  }

  lemma {:induction false} LooksKeepEntries(s: Net, caller: Caller, handle: nat, queue: Option<string>, vital: bool)
    ensures AcceptLook(s, caller, handle, queue, vital).0.entries.Keys == s.entries.Keys
    ensures RecvLook(s, caller, handle).0.entries.Keys == s.entries.Keys
  {
  }

  lemma {:induction false} ClaimKeepsHeld(s: Net, caller: Caller, named: Option<nat>, queue: Option<string>, vital: bool, h: nat)
    requires Numbered(s) && Held(s, h)
    ensures Held(Claim(s, caller, named, queue, vital).0, h)
  {
    var t := Claim(s, caller, named, queue, vital).0;
    var i := FirstOffer(s.offers, caller, named);
    var k :| k in s.entries && k.handle == h;
    if i.Some? && Slot(s.offers[i.value].from, s.offers[i.value].handle) in s.entries {
      var o := s.offers[i.value];
      var from, to := Slot(o.from, o.handle), Slot(caller, o.handle);
      var u := s.(offers := s.offers[..i.value] + s.offers[i.value + 1..], entries := (s.entries - {from})[to := s.entries[from]]);
      MovedEntries(s, u, i.value, to);
      assert t.entries.Keys == u.entries.Keys;
      var k' :| k' in u.entries && k'.handle == h;
      assert k' in t.entries;
    } else {
      assert k in t.entries;
    }
  }

  lemma {:induction false} SettleKeeps(s: Net, caller: Caller, handle: nat, answer: Result<Conn, string>, k: Slot)
    requires ConnsPlaced(s) && Slot(caller, handle) in s.log.opening && k in s.entries && s.entries[k].conn.Some?
    ensures k in Settle(s, caller, handle, answer).entries
  {
    assert s.log.holder[s.entries[k].conn.value] == k.handle;
  }

  /** Steps that take nothing out of the table. */
  lemma {:induction false} OthersKeep(s: Net, step: Step, k: Slot)
    requires k in s.entries
    requires step.OpenStep? || step.ListenStep? || step.ReportStep? || step.ArriveStep? || step.SweepStep?
             || step.TransferStep? || step.EndedStep? || step.NoticesStep?
    ensures k in Next(s, step).entries
  {
    SweepKeepsEntries(s);
  }

  /** A connection leaves the table only by `close`, by its owner's release, or with the connector. */
  lemma {:induction false} OnlyClosingRemoves(s: Net, step: Step, k: Slot)
    requires Reachable(s) && Possible(s, step)
    requires k in s.entries && s.entries[k].conn.Some? && !Held(Next(s, step), k.handle)
    ensures step.CloseStep? || step.ReleaseStep? || step.DropStep?
  {
    ReachableInv(s);
    assert Numbered(s) && ConnsPlaced(s);
    hide Inv, Numbered, ConnsPlaced, AcceptLook, RecvLook, Claim, Settle, Sweep, Transfer;
    assert k !in Next(s, step).entries;
    match step
    case SettleStep(caller, handle, answer) => SettleKeeps(s, caller, handle, answer, k);
    case ClaimStep(caller, named, queue, vital) => ClaimKeepsHeld(s, caller, named, queue, vital, k.handle);
    case AcceptStep(caller, handle, queue, vital) =>
      SweepKeepsEntries(s);
      LooksKeepEntries(Sweep(s), caller, handle, queue, vital);
    case RecvStep(caller, handle) =>
      SweepKeepsEntries(s);
      LooksKeepEntries(Sweep(s), caller, handle, None, false);
    case CloseStep(_, _) =>
    case ReleaseStep(_) =>
    case DropStep =>
    case _ => OthersKeep(s, step, k);
  }

  /** A live entry that leaves the table is closed at that very step, and was not before. */
  lemma {:induction false} LeavingCloses(s: Net, step: Step, k: Slot)
    requires Reachable(s) && Possible(s, step)
    requires k in s.entries && s.entries[k].gone.None? && s.entries[k].conn.Some? && !Held(Next(s, step), k.handle)
    ensures s.entries[k].conn.value !in s.log.closes
    ensures s.entries[k].conn.value in Next(s, step).log.closes
  {
    OnlyClosingRemoves(s, step, k);
    ReachableInv(s);
    NextInv(s, step);
    ClosingKeepsMarks(s, step);
    ClosedByNow(s, Next(s, step), k);
  }

  lemma {:induction false} ClosingKeepsMarks(s: Net, step: Step)
    requires step.CloseStep? || step.ReleaseStep? || step.DropStep?
    ensures var t := Next(s, step);
      t.log.holder == s.log.holder && t.log.farGone == s.log.farGone && t.log.stranded == s.log.stranded
  {
  }

  lemma {:induction false} ClosedByNow(s: Net, t: Net, k: Slot)
    requires ConnsPlaced(s) && MarksKept(s) && ClosedHeld(s) && ClosedLeft(t)
    requires k in s.entries && s.entries[k].gone.None? && s.entries[k].conn.Some? && !Held(t, k.handle)
    requires t.log.holder == s.log.holder && t.log.farGone == s.log.farGone && t.log.stranded == s.log.stranded
    ensures s.entries[k].conn.value !in s.log.closes && s.entries[k].conn.value in t.log.closes
  {
    assert s.log.holder[s.entries[k].conn.value] == k.handle;
  }

  /** Nothing is closed once the connector has gone, and the table stays empty. */
  lemma {:induction false} NothingAfterDrop(s: Net, steps: seq<Step>)
    requires s.log.dropped && Runs(s, steps)
    ensures var t := After(s, steps);
      t.log.dropped && t.log.closes == s.log.closes && t.entries == s.entries
    decreases |steps|
  {
    if steps != [] {
      NothingAfterDrop(Next(s, steps[0]), steps[1..]);
    }
  }

  /**
   What has been closed when the connector has gone, for good: each Conn at most
   once; one put into an entry unless the far end, or an overflow before the answer,
   had ended that; any other unless its arrival was still in the inbox.
   */
  lemma {:induction false} DropCloses(s: Net, steps: seq<Step>, c: Conn)
    requires Reachable(s) && c in s.log.seen && Runs(Dropped(s), steps)
    ensures var t := After(Dropped(s), steps);
      && multiset(t.log.closes)[c] <= 1
      && (c in t.log.closes <==> if c in s.log.holder then !Spared(s, s.log.holder[c]) else !ArrivalPending(s, c))
  {
    ReachableInv(s);
    DropInv(s);
    NothingAfterDrop(Dropped(s), steps);
    var t := Dropped(s);
    DistinctCounts(t.log.closes, c);
    assert ArrivalPending(t, c) <==> ArrivalPending(s, c);
    if c in s.log.holder {
      assert t.entries == map[];
      assert !Held(t, t.log.holder[c]);
    }
  }

  /** So not everything still open is closed: an arrival no sweep had read stays open. */
  lemma DropLeavesArrival()
    ensures exists s :: Reachable(s) && Possible(s, DropStep) && Reports(s) == [Accepted(2, 1, 9, "p")] && 9 in s.log.seen
                     && forall steps :: Runs(Dropped(s), steps) ==> 9 !in After(Dropped(s), steps).log.closes
  {
    var s := ListenedThenArrived();
    assert s.events[0].conn == 9 && ArrivalPending(s, 9);
    forall steps | Runs(Dropped(s), steps)
      ensures 9 !in After(Dropped(s), steps).log.closes
    {
      DropCloses(s, steps, 9);
    }
  }

  lemma ListenedThenArrived() returns (s: Net)
    ensures Reachable(s) && Possible(s, DropStep) && s.events == [Accepted(2, 1, 9, "p")]
    ensures s.entries == map[Slot(Node(1), 1) := Entry(1, Some(7), true, "a", None, false, [], None, None)]
    ensures s.nextKey == 3 && s.log.processed == [] && s.log.closes == [] && 9 in s.log.seen && 9 !in s.log.holder
  {
    hide Reachable;
    ReachableFresh();
    ReachableNext(Fresh, ListenStep(Node(1), "a", None));
    var s1 := BeginListen(Fresh, Node(1), "a", None);
    ReachableNext(s1, SettleStep(Node(1), 1, Ok(7)));
    var s2 := Settle(s1, Node(1), 1, Ok(7));
    ReachableNext(s2, ArriveStep(1, 9, "p"));
    s := Arrive(s2, 1, 9, "p");
  }

  /**
   The transport is promised that `close` is never called on what it already
   reported closed. An owner's `close` does not sweep first, so it breaks the promise
   for its own Conn exactly when the report is still in the inbox. `NetPromise` has
   every other step that does.
   */
  lemma {:induction false} ClosedAfterReport(s: Net, caller: Caller, handle: nat, c: Conn)
    requires Reachable(s) && Mine(s, Slot(caller, handle)) && s.entries[Slot(caller, handle)].conn == Some(c)
    ensures var e := s.entries[Slot(caller, handle)];
      var t := Close(s, caller, handle).0;
      (SaysClosed(Reports(s), e.key) && c !in s.log.closes && c in t.log.closes)
      <==> (e.gone.None? && SaysClosed(s.events, e.key))
  {
    ReachableInv(s);
    var k := Slot(caller, handle);
    var e := s.entries[k];
    var t := Close(s, caller, handle).0;
    CloseInv(s, caller, handle);
    assert TidyEntry(s, e);
    SaysClosedSplit(s.log.processed, s.events, e.key);
    assert s.log.holder[c] == handle;
    assert !Held(t, handle);
    assert t.log.farGone == s.log.farGone && t.log.stranded == s.log.stranded && t.log.holder == s.log.holder;
    assert c in t.log.closes <==> !Spared(s, handle);
    assert c in s.log.closes <==> e.gone.Some? && !Spared(s, handle);
  }

  lemma {:induction false} SaysClosedSplit(a: seq<Event>, b: seq<Event>, key: nat)
    ensures SaysClosed(a + b, key) <==> SaysClosed(a, key) || SaysClosed(b, key)
  {
    var r := a + b;
    if i :| 0 <= i < |a| && a[i].Closed? && a[i].key == key {
      assert r[i] == a[i];
    }
    if i :| 0 <= i < |b| && b[i].Closed? && b[i].key == key {
      assert r[|a| + i] == b[i];
    }
    if i :| 0 <= i < |r| && r[i].Closed? && r[i].key == key {
      assert if i < |a| then a[i] == r[i] else b[i - |a|] == r[i];
    }
  }

  /** And a run that does it: open, answer, report closed, close. */
  lemma CloseFollowsAReport()
    ensures exists s, c :: Reachable(s) && Mine(s, Slot(Node(1), 1)) && SaysClosed(Reports(s), 1)
                        && c !in s.log.closes && c in Close(s, Node(1), 1).0.log.closes
  {
    ReachableFresh();
    ReachableNext(Fresh, OpenStep(Node(1), "b", None, false));
    var s1 := BeginOpen(Fresh, Node(1), "b", None, false);
    ReachableNext(s1, SettleStep(Node(1), 1, Ok(7)));
    var s2 := Settle(s1, Node(1), 1, Ok(7));
    ReachableNext(s2, ReportStep(Closed(1, None)));
    var s := Report(s2, Closed(1, None));
    assert s.events[0] == Closed(1, None) && Reports(s)[0] == s.events[0];
    assert SaysClosed(s.events, 1) && SaysClosed(Reports(s), 1);
    ClosedAfterReport(s, Node(1), 1, 7);
  }

  // ----- owners -----

  lemma {:induction false} OneOwnerPerNumber(s: Net, a: Slot, b: Slot)
    requires Reachable(s) && a in s.entries && b in s.entries && a.handle == b.handle
    ensures a == b
  {
    ReachableInv(s);
  }

  /** An offer can be taken unless the transport refused the handle after it was made. */
  lemma {:induction false} OfferCanBeTaken(s: Net, caller: Caller, named: Option<nat>, queue: Option<string>, vital: bool)
    requires Reachable(s) && FirstOffer(s.offers, caller, named).Some?
    ensures var o := s.offers[FirstOffer(s.offers, caller, named).value];
      var r := Claim(s, caller, named, queue, vital);
      && o.to == caller
      && (r.1.answer.Err? <==> o.handle in s.log.refused)
      && (r.1.answer.Ok? ==> Mine(s, Slot(o.from, o.handle)) && r.1.answer.value.0 == o.handle)
  {
    ReachableInv(s);
    var o := s.offers[FirstOffer(s.offers, caller, named).value];
    assert o in s.offers;
    if o.handle in s.log.refused {
      assert !Held(s, o.handle);
    }
  }

  lemma {:induction false} OneOfferPerHandle(s: Net, i: nat, j: nat)
    requires Reachable(s) && i < |s.offers| && j < |s.offers|
    requires s.offers[i].from == s.offers[j].from && s.offers[i].handle == s.offers[j].handle
    ensures i == j
  {
    ReachableInv(s);
  }

  /** A claim moves the entry, its number and its unread data, and no other. */
  lemma {:induction false} ClaimMovesOneEntry(s: Net, caller: Caller, named: Option<nat>, queue: Option<string>, vital: bool)
    requires Reachable(s) && Claim(s, caller, named, queue, vital).1.Ready? && Claim(s, caller, named, queue, vital).1.answer.Ok?
    ensures var o := s.offers[FirstOffer(s.offers, caller, named).value];
      var t := Claim(s, caller, named, queue, vital).0;
      var from, to := Slot(o.from, o.handle), Slot(caller, o.handle);
      && from in s.entries && from !in t.entries && to !in s.entries && to in t.entries
      && (forall k :: k != from && k != to ==> (k in t.entries <==> k in s.entries) && (k in s.entries ==> t.entries[k] == s.entries[k]))
      && t.entries[to] == s.entries[from].(waiting := None, vital := vital, queue := queue,
                                           inbound := if queue.None? then s.entries[from].inbound else [])
  {
    hide Reachable, Inv, Claim, Adopt;
    ReachableInv(s);
    ClaimedTable(s, caller, named, queue, vital);
    OfferedSlots(s, FirstOffer(s.offers, caller, named).value);
  }

  lemma {:induction false} ClaimedTable(s: Net, caller: Caller, named: Option<nat>, queue: Option<string>, vital: bool)
    requires Claim(s, caller, named, queue, vital).1.Ready? && Claim(s, caller, named, queue, vital).1.answer.Ok?
    ensures FirstOffer(s.offers, caller, named).Some?
    ensures var o := s.offers[FirstOffer(s.offers, caller, named).value];
      var from, to := Slot(o.from, o.handle), Slot(caller, o.handle);
      && from in s.entries
      && Claim(s, caller, named, queue, vital).0.entries
         == (s.entries - {from})[to := s.entries[from].(waiting := None, vital := vital, queue := queue,
                                           inbound := if queue.None? then s.entries[from].inbound else [])]
  {
  }

  lemma OfferedSlots(s: Net, i: nat)
    requires Inv(s) && i < |s.offers|
    ensures var o := s.offers[i];
      o.from != o.to && (Slot(o.from, o.handle) in s.entries ==> Slot(o.to, o.handle) !in s.entries)
  {
    assert Numbered(s) && s.offers[i] in s.offers;
  }

  /** And what it already buffered is given to the claimant or kept for it, in order. */
  lemma {:induction false} ClaimKeepsData(s: Net, caller: Caller, named: Option<nat>, queue: Option<string>, vital: bool)
    requires Claim(s, caller, named, queue, vital).1.Ready? && Claim(s, caller, named, queue, vital).1.answer.Ok?
    ensures var o := s.offers[FirstOffer(s.offers, caller, named).value];
      var t := Claim(s, caller, named, queue, vital).0;
      HandedTo(t.log.handed, o.handle) + t.entries[Slot(caller, o.handle)].inbound
      == HandedTo(s.log.handed, o.handle) + s.entries[Slot(o.from, o.handle)].inbound
  {
    var o := s.offers[FirstOffer(s.offers, caller, named).value];
    var e := s.entries[Slot(o.from, o.handle)];
    var to := Slot(caller, o.handle);
    DeliveriesTo(to, queue, e.inbound);
    HandedAppend(s.log.handed, Deliveries(to, queue, e.inbound), o.handle);
  }

  lemma {:induction false} LooksTouchTheirOwn(s: Net, caller: Caller, handle: nat, queue: Option<string>, vital: bool, k: Slot)
    requires k.owner != caller && k in s.entries
    ensures k in AcceptLook(s, caller, handle, queue, vital).0.entries
         && AcceptLook(s, caller, handle, queue, vital).0.entries[k] == s.entries[k]
    ensures k in RecvLook(s, caller, handle).0.entries && RecvLook(s, caller, handle).0.entries[k] == s.entries[k]
  {
  }

  lemma {:induction false} CloseTouchesItsOwn(s: Net, caller: Caller, handle: nat, k: Slot)
    requires k.owner != caller && k in s.entries
    ensures k in Close(s, caller, handle).0.entries && Close(s, caller, handle).0.entries[k] == s.entries[k]
    ensures k in Release(s, caller).0.entries && Release(s, caller).0.entries[k] == s.entries[k]
  {
  }

  lemma {:induction false} OpensTouchTheirOwn(s: Net, caller: Caller, e: Entry, handle: nat, answer: Result<Conn, string>, k: Slot)
    requires k.owner != caller && k in s.entries
    ensures k in Begin(s, caller, e).entries && Begin(s, caller, e).entries[k] == s.entries[k]
    ensures k in Settle(s, caller, handle, answer).entries && Settle(s, caller, handle, answer).entries[k] == s.entries[k]
  {
  }

  /** The slot a claim takes from. */
  function ClaimedFrom(s: Net, caller: Caller, named: Option<nat>): Option<Slot> {
    match FirstOffer(s.offers, caller, named)
    case None => None
    case Some(i) => Some(Slot(s.offers[i].from, s.offers[i].handle))
  }

  lemma {:induction false} ClaimTouchesOne(s: Net, caller: Caller, named: Option<nat>, queue: Option<string>, vital: bool, k: Slot)
    requires k.owner != caller && k in s.entries && ClaimedFrom(s, caller, named) != Some(k)
    ensures k in Claim(s, caller, named, queue, vital).0.entries && Claim(s, caller, named, queue, vital).0.entries[k] == s.entries[k]
  {
  }

  /** The steps that are calls, and whose. */
  function CallerOf(step: Step): Option<Caller> {
    match step
    case OpenStep(caller, _, _, _) => Some(caller)
    case ListenStep(caller, _, _) => Some(caller)
    case SettleStep(caller, _, _) => Some(caller)
    case AcceptStep(caller, _, _, _) => Some(caller)
    case RecvStep(caller, _) => Some(caller)
    case CloseStep(caller, _) => Some(caller)
    case TransferStep(caller, _, _) => Some(caller)
    case ClaimStep(caller, _, _, _) => Some(caller)
    case ReleaseStep(caller) => Some(caller)
    case _ => None
  }

  /**
   Beyond the sweep they do, calls of one owner leave every other owner's entries
   alone, but for the one a claim was offered.
   */
  lemma {:induction false} CallsTouchTheirOwn(s: Net, step: Step, k: Slot)
    requires CallerOf(step).Some? && k.owner != CallerOf(step).value
    requires step.ClaimStep? ==> ClaimedFrom(s, step.caller, step.named) != Some(k)
    requires k in (if step.AcceptStep? || step.RecvStep? then Sweep(s) else s).entries
    ensures k in Next(s, step).entries
    ensures Next(s, step).entries[k] == (if step.AcceptStep? || step.RecvStep? then Sweep(s) else s).entries[k]
  {
    hide Sweep, AcceptLook, RecvLook, Close, Release, Claim, Begin, Settle, ClaimedFrom;
    match step
    case OpenStep(caller, address, queue, vital) =>
      OpensTouchTheirOwn(s, caller, Entry(s.nextKey, None, false, address, queue, vital, [], None, None), 0, Err(""), k);
    case ListenStep(caller, address, queue) =>
      OpensTouchTheirOwn(s, caller, Entry(s.nextKey, None, true, address, queue, false, [], None, None), 0, Err(""), k);
    case SettleStep(caller, handle, answer) =>
      OpensTouchTheirOwn(s, caller, Entry(0, None, false, "", None, false, [], None, None), handle, answer, k);
    case AcceptStep(caller, handle, queue, vital) => LooksTouchTheirOwn(Sweep(s), caller, handle, queue, vital, k);
    case RecvStep(caller, handle) => LooksTouchTheirOwn(Sweep(s), caller, handle, None, false, k);
    case CloseStep(caller, handle) => CloseTouchesItsOwn(s, caller, handle, k);
    case ReleaseStep(caller) => CloseTouchesItsOwn(s, caller, 0, k);
    case ClaimStep(caller, named, queue, vital) => ClaimTouchesOne(s, caller, named, queue, vital, k);
    case TransferStep(_, _, _) =>
  }
}
