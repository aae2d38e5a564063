/** Which entries a step ends, whose owners end with them, who is told, and what a release reports. */
module NetEndings {
  import opened Prelude
  import opened NetState
  import opened NetSafety
  import opened NetTheorems
  import opened NetPromise
  import opened NetTold

  // ----- what a sweep ends -----

  /** `k` is gone now and was not before. */
  ghost predicate Ends(s: Net, t: Net, k: Slot) {
    k in t.entries && t.entries[k].gone.Some? && !(k in s.entries && s.entries[k].gone.Some?)
  }

  /** One ending for each entry that was vital to its owner, with how it went and what it was. */
  ghost function EndingsFor(t: Net, ks: seq<Slot>): seq<Ending>
    requires forall k :: k in ks ==> k in t.entries
  {
    if ks == [] then [] else
      var k := ks[0];
      var e := t.entries[k];
      (if e.vital then [Ending(k.owner, if k.handle in t.log.farGone then FarEnd else Overflow, e.listener, e.name)] else [])
      + EndingsFor(t, ks[1..])
  }

  /** One close push for each entry whose owner named a queue, with the reason it went for. */
  ghost function ClosesFor(t: Net, ks: seq<Slot>): seq<Notice>
    requires forall k :: k in ks ==> k in t.entries && t.entries[k].gone.Some?
  {
    if ks == [] then [] else
      var k := ks[0];
      var e := t.entries[k];
      (if e.queue.Some? then [Notice(k.owner, e.queue.value, ClosedPush(k.handle, e.gone.value))] else [])
      + ClosesFor(t, ks[1..])
  }

  /** The close pushes among notices. */
  function ClosesIn(ns: seq<Notice>): seq<Notice> {
    if ns == [] then [] else
      var n := ns[|ns| - 1];
      ClosesIn(ns[..|ns| - 1]) + if n.message.ClosedPush? then [n] else []
  }

  lemma {:induction false} ClosesInAppend(a: seq<Notice>, b: seq<Notice>)
    ensures ClosesIn(a + b) == ClosesIn(a) + ClosesIn(b)
  {
    if b == [] {
      assert a + b == a;
    } else {
      assert (a + b)[..|a + b| - 1] == a + b[..|b| - 1];
      ClosesInAppend(a, b[..|b| - 1]);
    }
  }

  lemma OneClose(n: Notice)
    ensures ClosesIn([n]) == if n.message.ClosedPush? then [n] else []
  {
    assert [n][..0] == [] && ClosesIn([]) == [];
  }

  /** What ended, in the order it ended: who ends with it, and who is told. */
  ghost predicate EndedIn(s: Net, t: Net, ks: seq<Slot>) {
    && Distinct(ks) && (forall k :: k in ks <==> Ends(s, t, k))
    && t.ended == s.ended + EndingsFor(t, ks)
    && ClosesIn(t.pushes) == ClosesIn(s.pushes) + ClosesFor(t, ks)
  }

  /** What the head of the inbox ends. */
  ghost function Struck(s: Net): seq<Slot>
    requires s.events != []
  {
    var ev := s.events[0];
    var k := SlotOf(s.entries, ev.key);
    if !ev.Accepted? && k.Some? && s.entries[k.value].gone.None? && (ev.Closed? || Full(s.entries[k.value])) then [k.value] else []
  }

  lemma NoneFor(t: Net)
    ensures EndingsFor(t, []) == [] && ClosesFor(t, []) == []
  {
  }

  lemma OneFor(t: Net, k: Slot)
    requires k in t.entries && t.entries[k].gone.Some?
    ensures var e := t.entries[k];
      && EndingsFor(t, [k])
         == (if e.vital then [Ending(k.owner, if k.handle in t.log.farGone then FarEnd else Overflow, e.listener, e.name)] else [])
      && ClosesFor(t, [k]) == if e.queue.Some? then [Notice(k.owner, e.queue.value, ClosedPush(k.handle, e.gone.value))] else []
  {
    assert [k][1..] == [];
    NoneFor(t);
  }

  /** Entries that are gone stay as they are, and so does what is said of how they went. */
  ghost predicate GoneStay(s: Net, t: Net) {
    forall k :: k in s.entries && s.entries[k].gone.Some? ==>
      k in t.entries && t.entries[k] == s.entries[k] && (k.handle in t.log.farGone <==> k.handle in s.log.farGone)
  }

  lemma DataEnds(s: Net, k: Slot, data: Bytes)
    requires k in s.entries && k.handle !in s.log.farGone
    ensures var t := RouteData(s, k, data);
      if s.entries[k].gone.None? && Full(s.entries[k]) then
        && t.entries == s.entries[k := s.entries[k].(gone := Some(Some(OVERFLOW)))] && t.log.farGone == s.log.farGone
        && t.ended == s.ended + EndingsFor(t, [k]) && t.pushes == s.pushes && ClosesFor(t, [k]) == []
      else
        && (forall j :: !Ends(s, t, j)) && t.ended == s.ended && ClosesIn(t.pushes) == ClosesIn(s.pushes)
    ensures GoneStay(s, RouteData(s, k, data))
  {
    var t := RouteData(s, k, data);
    var e := s.entries[k];
    if e.gone.None? && Full(e) {
      OneFor(t, k);
      hide EndingsFor, ClosesFor, ClosesIn;
    } else {
      hide EndingsFor, ClosesFor;
      if e.gone.None? && e.queue.Some? {
        var n := Notice(k.owner, e.queue.value, DataPush(k.handle, data));
        OneClose(n);
        ClosesInAppend(s.pushes, [n]);
        hide ClosesIn;
      }
    }
  }

  lemma ClosedEnds(s: Net, k: Slot, reason: Option<string>)
    requires k in s.entries && s.entries[k].gone.None?
    ensures var t := RouteClosed(s, k, reason);
      && t.entries == s.entries[k := s.entries[k].(gone := Some(reason))] && t.log.farGone == s.log.farGone + {k.handle}
      && t.ended == s.ended + EndingsFor(t, [k]) && ClosesIn(t.pushes) == ClosesIn(s.pushes) + ClosesFor(t, [k])
  {
    var t := RouteClosed(s, k, reason);
    OneFor(t, k);
    if s.entries[k].queue.Some? {
      var n := Notice(k.owner, s.entries[k].queue.value, ClosedPush(k.handle, reason));
      OneClose(n);
      ClosesInAppend(s.pushes, [n]);
    }
  }

  lemma AcceptedEnds(s: Net, l: Slot, ev: Event)
    requires l in s.entries && ev.Accepted? && Slot(l.owner, s.nextHandle) !in s.entries
    ensures var t := RouteAccepted(s, l, ev);
      && (forall j :: !Ends(s, t, j)) && (forall j :: j in s.entries ==> j in t.entries && t.entries[j] == s.entries[j])
      && t.ended == s.ended && ClosesIn(t.pushes) == ClosesIn(s.pushes) && t.log.farGone == s.log.farGone
  {
    var q := s.entries[l].queue;
    if q.Some? {
      var n := Notice(l.owner, q.value, AcceptedPush(l.handle, s.nextHandle, ev.peer));
      OneClose(n);
      ClosesInAppend(s.pushes, [n]);
    }
  }

  /** What is said of entries that stay gone stays the same. */
  lemma {:induction false} SaidStays(s: Net, t: Net, ks: seq<Slot>)
    requires GoneStay(s, t) && forall k :: k in ks ==> k in s.entries && s.entries[k].gone.Some?
    ensures EndingsFor(t, ks) == EndingsFor(s, ks) && ClosesFor(t, ks) == ClosesFor(s, ks)
  {
    if ks != [] {
      assert ks[0] in ks;
      SaidStays(s, t, ks[1..]);
    }
  }

  lemma {:induction false} HeadDataEnds(s: Net, k: Slot)
    requires Numbered(s) && MarksKept(s) && s.events != [] && s.events[0].Data? && SlotOf(s.entries, s.events[0].key) == Some(k)
    ensures EndedIn(s, RouteHead(s), Struck(s)) && GoneStay(s, RouteHead(s))
  {
    hide RouteData, EndingsFor, ClosesFor, ClosesIn, Numbered, MarksKept;
    var u := s.(events := s.events[1..]);
    var t := RouteHead(s);
    NoneFor(t);
    assert s.ended + [] == s.ended && ClosesIn(s.pushes) + [] == ClosesIn(s.pushes);
    if s.entries[k].gone.None? {
      assert k.handle !in s.log.farGone by { LiveUnspared(s, k); }
      DataEnds(u, k, s.events[0].data);
      var v := RouteData(u, k, s.events[0].data);
      if Full(s.entries[k]) {
        SaidStays(v, t, [k]);
      } else {
        assert forall j :: Ends(s, t, j) <==> Ends(u, v, j);
      }
    } else {
      GoneUnmoved(u, k, None);
      assert RouteData(u, k, s.events[0].data) == u;
    }
  }

  lemma LiveUnspared(s: Net, k: Slot)
    requires MarksKept(s) && k in s.entries && s.entries[k].gone.None?
    ensures k.handle !in s.log.farGone
  {
  }

  lemma {:induction false} HeadClosedEnds(s: Net, k: Slot)
    requires Numbered(s) && s.events != [] && s.events[0].Closed? && SlotOf(s.entries, s.events[0].key) == Some(k)
    ensures EndedIn(s, RouteHead(s), Struck(s)) && GoneStay(s, RouteHead(s))
  {
    hide RouteClosed, EndingsFor, ClosesFor, ClosesIn;
    var u := s.(events := s.events[1..]);
    var t := RouteHead(s);
    NoneFor(t);
    assert s.ended + [] == s.ended && ClosesIn(s.pushes) + [] == ClosesIn(s.pushes);
    if s.entries[k].gone.None? {
      ClosedEnds(u, k, s.events[0].reason);
      SaidStays(RouteClosed(u, k, s.events[0].reason), t, [k]);
    } else {
      GoneUnmoved(u, k, s.events[0].reason);
    }
  }

  lemma GoneUnmoved(s: Net, k: Slot, reason: Option<string>)
    requires k in s.entries && s.entries[k].gone.Some?
    ensures RouteClosed(s, k, reason) == s && forall data :: RouteData(s, k, data) == s
  {
  }

  lemma {:induction false} HeadEnds(s: Net)
    requires Inv(s) && s.events != []
    ensures EndedIn(s, RouteHead(s), Struck(s)) && GoneStay(s, RouteHead(s))
  {
    assert Numbered(s) && MarksKept(s);
    hide Inv, Numbered, MarksKept, EndedIn, GoneStay;
    match s.events[0]
    case Data(key, data) =>
      var k := SlotOf(s.entries, key);
      if k.Some? { HeadDataEnds(s, k.value); } else { HeadUnclaimed(s); }
    case Closed(key, reason) =>
      var k := SlotOf(s.entries, key);
      if k.Some? { HeadClosedEnds(s, k.value); } else { HeadUnclaimed(s); }
    case Accepted(_, listener, _, _) => HeadAcceptedEnds(s);
  }

  lemma {:induction false} HeadAcceptedEnds(s: Net)
    requires Numbered(s) && s.events != [] && s.events[0].Accepted?
    ensures EndedIn(s, RouteHead(s), Struck(s)) && GoneStay(s, RouteHead(s))
  {
    hide RouteAccepted, EndingsFor, ClosesFor, ClosesIn;
    var u := s.(events := s.events[1..]);
    var l := SlotOf(s.entries, s.events[0].listener);
    NoneFor(RouteHead(s));
    assert s.ended + [] == s.ended && ClosesIn(s.pushes) + [] == ClosesIn(s.pushes);
    if l.Some? {
      NextSlotFree(s, l.value.owner);
      AcceptedEnds(u, l.value, s.events[0]);
      assert forall j :: Ends(s, RouteHead(s), j) <==> Ends(u, RouteAccepted(u, l.value, s.events[0]), j);
    }
  }

  lemma HeadUnclaimed(s: Net)
    requires s.events != [] && !s.events[0].Accepted? && SlotOf(s.entries, s.events[0].key).None?
    ensures EndedIn(s, RouteHead(s), Struck(s)) && GoneStay(s, RouteHead(s))
  {
    NothingEnds(s, RouteHead(s));
  }

  lemma NextSlotFree(s: Net, owner: Caller)
    requires Numbered(s)
    ensures Slot(owner, s.nextHandle) !in s.entries
  {
  }

  lemma {:induction false} EndedThen(s: Net, u: Net, t: Net, ks: seq<Slot>, js: seq<Slot>)
    requires EndedIn(s, u, ks) && EndedIn(u, t, js) && GoneStay(s, u) && GoneStay(u, t) && s.entries.Keys <= u.entries.Keys
    ensures EndedIn(s, t, ks + js) && GoneStay(s, t)
  {
    var all := ks + js;
    assert GoneStay(s, t);
    hide EndingsFor, ClosesFor, ClosesIn;
    EndedSlots(s, u, t, ks, js);
    SaidStays(u, t, ks);
    ForAppend(t, ks, js);
  }

  lemma {:induction false} ForAppend(t: Net, ks: seq<Slot>, js: seq<Slot>)
    requires forall k :: k in ks + js ==> k in t.entries && t.entries[k].gone.Some?
    ensures EndingsFor(t, ks + js) == EndingsFor(t, ks) + EndingsFor(t, js)
    ensures ClosesFor(t, ks + js) == ClosesFor(t, ks) + ClosesFor(t, js)
  {
    if ks == [] {
      assert ks + js == js;
    } else {
      assert (ks + js)[1..] == ks[1..] + js;
      assert forall k :: k in ks[1..] + js ==> k in ks + js;
      assert ks[0] in ks + js;
      ForAppend(t, ks[1..], js);
    }
  }

  lemma {:induction false} EndedSlots(s: Net, u: Net, t: Net, ks: seq<Slot>, js: seq<Slot>)
    requires Distinct(ks) && Distinct(js) && (forall k :: k in ks <==> Ends(s, u, k)) && (forall k :: k in js <==> Ends(u, t, k))
    requires GoneStay(s, u) && GoneStay(u, t)
    ensures Distinct(ks + js) && forall k :: k in ks + js <==> Ends(s, t, k)
  {
    var all := ks + js;
    forall i, j | 0 <= i < j < |all|
      ensures all[i] != all[j]
    {
      if i < |ks| <= j {
        assert all[i] in ks && all[j] == js[j - |ks|] && js[j - |ks|] in js;
      }
    }
    forall k
      ensures k in all <==> Ends(s, t, k)
    {
      assert k in all <==> k in ks || k in js;
    }
  }

  /**
   A sweep ends some entries, each once. The owner of each that was vital ends, with
   how it went and what it was; the owner of each that named a queue is told, with
   the reason. Nobody else ends or is told of a close.
   */
  lemma {:induction false} SweepEnds(s: Net) returns (ks: seq<Slot>)
    requires Inv(s)
    ensures EndedIn(s, Sweep(s), ks) && GoneStay(s, Sweep(s))
    decreases |s.events|
  {
    hide Inv, RouteHead, Struck, EndedIn, GoneStay;
    if s.events == [] {
      ks := [];
      NothingEnds(s, s);
    } else {
      HeadEnds(s);
      HeadReports(s);
      RouteInv(s);
      var js := SweepEnds(RouteHead(s));
      assert Sweep(s) == Sweep(RouteHead(s));
      assert s.entries.Keys <= RouteHead(s).entries.Keys by { HeadKeeps(s); }
      EndedThen(s, RouteHead(s), Sweep(s), Struck(s), js);
      ks := Struck(s) + js;
    }
  }

  lemma HeadKeeps(s: Net)
    requires s.events != []
    ensures s.entries.Keys <= RouteHead(s).entries.Keys
  {
    RouteKeepsEvents(s.(events := s.events[1..]), s.events[0]);
  }

  lemma NothingEnds(s: Net, t: Net)
    requires t.entries == s.entries && t.ended == s.ended && t.pushes == s.pushes && t.log.farGone == s.log.farGone
    ensures EndedIn(s, t, []) && GoneStay(s, t)
  {
    NoneFor(t);
    assert s.ended + [] == s.ended && ClosesIn(s.pushes) + [] == ClosesIn(s.pushes);
  }

  // ----- every step -----

  /** The state a step looks at: swept first, or as it is. */
  ghost function LookedAt(s: Net, step: Step): Net {
    if Sweeps(step) then Sweep(s) else s
  }

  /** The endings a step hands over. */
  ghost function EndingsOf(s: Net, step: Step): seq<Ending> {
    if step.EndedStep? then TakeEnded(s).1 else []
  }

  /** An owner that closes what was vital to it ends by its own hand. */
  function OwnEnding(s: Net, step: Step): seq<Ending> {
    if step.CloseStep? && Mine(s, Slot(step.caller, step.handle)) && s.entries[Slot(step.caller, step.handle)].vital then
      var e := s.entries[Slot(step.caller, step.handle)];
      [Ending(step.caller, OwnClose, e.listener, e.name)]
    else []
  }

  /** The number an accept or a claim answers with. */
  ghost function TakenBy(s: Net, step: Step): Option<nat> {
    match step
    case AcceptStep(caller, listener, queue, vital) =>
      (match Accept(s, caller, listener, queue, vital).1
       case Ready(Ok((h, _))) => Some(h)
       case _ => None)
    case ClaimStep(caller, named, queue, vital) =>
      (match Claim(s, caller, named, queue, vital).1
       case Ready(Ok((h, _, _))) => Some(h)
       case _ => None)
    case _ => None
  }

  /** A connection taken over after its far end went has its new owner told so. */
  ghost function LateClose(s: Net, step: Step): seq<Notice> {
    var t, h := Next(s, step), TakenBy(s, step);
    if h.None? || Slot(step.caller, h.value) !in t.entries then [] else
      var e := t.entries[Slot(step.caller, h.value)];
      if e.queue.Some? && e.gone.Some? then [Notice(step.caller, e.queue.value, ClosedPush(h.value, e.gone.value))] else []
  }

  lemma {:induction false} DataNoClose(ns: seq<Notice>)
    requires forall i :: 0 <= i < |ns| ==> ns[i].message.DataPush?
    ensures ClosesIn(ns) == []
  {
    if ns != [] {
      DataNoClose(ns[..|ns| - 1]);
    }
  }

  lemma {:induction false} TakenOverCloses(s: Net, t: Net, k: Slot, e: Entry, queue: Option<string>, vital: bool)
    requires TakenOver(s, t, k, e, queue, vital)
    ensures ClosesIn(t.pushes) == ClosesIn(s.pushes)
      + if queue.Some? && e.gone.Some? then [Notice(k.owner, queue.value, ClosedPush(k.handle, e.gone.value))] else []
  {
    if queue.Some? {
      var ns :| t.pushes == s.pushes + ns && Unread(ns, k.owner, queue.value, k.handle, e);
      ClosesInAppend(s.pushes, ns);
      DataNoClose(ns[..|e.inbound|]);
      if e.gone.Some? {
        assert ns == ns[..|e.inbound|] + [ns[|e.inbound|]];
        ClosesInAppend(ns[..|e.inbound|], [ns[|e.inbound|]]);
        OneClose(ns[|e.inbound|]);
      } else {
        assert ns == ns[..|e.inbound|];
      }
    }
  }

  lemma {:induction false} AcceptCloses(s: Net, step: Step)
    requires step.AcceptStep?
    ensures Next(s, step).ended == Sweep(s).ended
    ensures ClosesIn(Next(s, step).pushes) == ClosesIn(Sweep(s).pushes) + LateClose(s, step)
  {
    hide Sweep, AcceptLook, ClosesIn, TakenOver;
    var u, t := Sweep(s), Next(s, step);
    AcceptEnded(u, step.caller, step.handle, step.queue, step.vital);
    match Accept(s, step.caller, step.handle, step.queue, step.vital).1
    case Ready(Ok((h, peer))) =>
      AcceptGives(s, step.caller, step.handle, step.queue, step.vital, h, peer);
      var k := Slot(step.caller, h);
      TakenOverCloses(u, t, k, u.entries[k], step.queue, step.vital);
      TakenOverIs(u, t, k, u.entries[k], step.queue, step.vital);
    case _ =>
  }

  lemma TakenOverIs(s: Net, t: Net, k: Slot, e: Entry, queue: Option<string>, vital: bool)
    requires TakenOver(s, t, k, e, queue, vital)
    ensures k in t.entries && t.entries[k].queue == queue && t.entries[k].gone == e.gone && t.entries[k].vital == vital
  {
  }

  lemma AcceptEnded(s: Net, caller: Caller, listener: nat, queue: Option<string>, vital: bool)
    ensures var (t, r) := AcceptLook(s, caller, listener, queue, vital);
      t.ended == s.ended && (!(r.Ready? && r.answer.Ok?) ==> t.pushes == s.pushes)
  {
  }

  lemma {:induction false} ClaimCloses(s: Net, step: Step)
    requires step.ClaimStep?
    ensures Next(s, step).ended == s.ended
    ensures ClosesIn(Next(s, step).pushes) == ClosesIn(s.pushes) + LateClose(s, step)
  {
    hide Claim, ClosesIn, TakenOver;
    var t := Next(s, step);
    ClaimEnded(s, step.caller, step.named, step.queue, step.vital);
    match Claim(s, step.caller, step.named, step.queue, step.vital).1
    case Ready(Ok((h, name, listener))) =>
      ClaimGives(s, step.caller, step.named, step.queue, step.vital, h, name, listener);
      var o :| o in s.offers && Slot(o.from, h) in s.entries
               && TakenOver(s, t, Slot(step.caller, h), s.entries[Slot(o.from, h)], step.queue, step.vital);
      TakenOverCloses(s, t, Slot(step.caller, h), s.entries[Slot(o.from, h)], step.queue, step.vital);
      TakenOverIs(s, t, Slot(step.caller, h), s.entries[Slot(o.from, h)], step.queue, step.vital);
    case _ =>
  }

  lemma ClaimEnded(s: Net, caller: Caller, named: Option<nat>, queue: Option<string>, vital: bool)
    ensures var (t, r) := Claim(s, caller, named, queue, vital);
      t.ended == s.ended && (!(r.Ready? && r.answer.Ok?) ==> t.pushes == s.pushes)
  {
  }

  lemma RecvEnded(s: Net, caller: Caller, handle: nat)
    ensures var t := RecvLook(s, caller, handle).0;
      t.ended == s.ended && t.pushes == s.pushes
  {
  }

  lemma QuietEnds(s: Net, step: Step)
    requires !Sweeps(step) && !step.ClaimStep? && !step.DropStep?
    ensures Next(s, step).ended == s.ended + OwnEnding(s, step) && Next(s, step).pushes == s.pushes
  {
    assert s.ended + [] == s.ended;
  }

  /**
   In any step: besides what its sweep ends, only an owner that closes what was vital
   to it ends, and only a new owner of what is gone already is told of a close. What a
   step hands over is what had been noted.
   */
  lemma {:induction false} StepEnds(s: Net, step: Step) returns (ks: seq<Slot>)
    requires Reachable(s) && Possible(s, step) && !step.DropStep?
    ensures var u, t := LookedAt(s, step), Next(s, step);
      && EndedIn(s, u, ks)
      && EndingsOf(s, step) + t.ended == u.ended + OwnEnding(s, step)
      && ClosesIn(NoticesOf(s, step) + t.pushes) == ClosesIn(u.pushes) + LateClose(s, step)
  {
    hide Reachable, Inv, Sweep, EndedIn, ClosesIn, GoneStay, LateClose, Next, OwnEnding, EndingsOf, NoticesOf;
    ReachableInv(s);
    if Sweeps(step) {
      ks := SweepEnds(s);
      SweepingEnds(s, step);
    } else {
      ks := [];
      assert EndedIn(s, s, []) by { NothingEnds(s, s); }
      PlainEnds(s, step);
    }
  }

  lemma {:induction false} PlainEnds(s: Net, step: Step)
    requires !Sweeps(step) && !step.DropStep?
    ensures EndingsOf(s, step) + Next(s, step).ended == s.ended + OwnEnding(s, step)
    ensures ClosesIn(NoticesOf(s, step) + Next(s, step).pushes) == ClosesIn(s.pushes) + LateClose(s, step)
  {
    hide ClosesIn, LateClose, Next, TakenBy;
    assert NoticesOf(s, step) + Next(s, step).pushes == Next(s, step).pushes;
    if step.ClaimStep? {
      ClaimCloses(s, step);
    } else {
      QuietEnds(s, step);
      NoLateClose(s, step);
    }
  }

  lemma {:induction false} SweepingEnds(s: Net, step: Step)
    requires Sweeps(step)
    ensures EndingsOf(s, step) + Next(s, step).ended == Sweep(s).ended + OwnEnding(s, step)
    ensures ClosesIn(NoticesOf(s, step) + Next(s, step).pushes) == ClosesIn(Sweep(s).pushes) + LateClose(s, step)
  {
    hide ClosesIn, LateClose, TakenBy, AcceptLook, RecvLook, Sweep;
    var u, t := Sweep(s), Next(s, step);
    assert OwnEnding(s, step) == [];
    assert NoticesOf(s, step) + t.pushes == if step.NoticesStep? then u.pushes else t.pushes;
    assert ClosesIn(u.pushes) + [] == ClosesIn(u.pushes) && u.ended + [] == u.ended;
    assert EndingsOf(s, step) + t.ended == if step.EndedStep? then u.ended else t.ended;
    if step.AcceptStep? {
      AcceptCloses(s, step);
    } else {
      NoLateClose(s, step);
      if step.RecvStep? {
        RecvEnded(u, step.caller, step.handle);
      }
    }
  }

  lemma NoLateClose(s: Net, step: Step)
    requires !step.AcceptStep? && !step.ClaimStep?
    ensures LateClose(s, step) == []
  {
    hide Next;
  }

  // ----- the report of a release -----

  /** A connection whose release cuts it off: live, and not one still waiting to be accepted. */
  predicate Cut(s: Net, owner: Caller, k: Slot) {
    k in s.entries && k.owner == owner && IsCut(s.entries[k])
  }

  ghost predicate InTableOrder(ks: seq<Slot>) {
    forall i, j :: 0 <= i < j < |ks| ==> Before(ks[i], ks[j])
  }

  predicate IsCut(e: Entry) {
    e.gone.None? && !e.listener && e.waiting.None?
  }

  lemma TailInOrder(ks: seq<Slot>)
    requires ks != [] && InTableOrder(ks)
    ensures InTableOrder(ks[1..]) && forall k :: k in ks[1..] ==> Before(ks[0], k)
  {
    forall i, j | 0 <= i < j < |ks[1..]|
      ensures Before(ks[1..][i], ks[1..][j])
    {
      assert ks[1..][i] == ks[i + 1] && ks[1..][j] == ks[j + 1];
    }
  }

  lemma InFront(k: Slot, rest: seq<Slot>)
    requires InTableOrder(rest) && forall j :: j in rest ==> Before(k, j)
    ensures InTableOrder([k] + rest)
  {
  }

  lemma {:induction false} LostAre(entries: map<Slot, Entry>, ks: seq<Slot>) returns (cut: seq<Slot>)
    requires (forall k :: k in ks ==> k in entries) && InTableOrder(ks)
    ensures InTableOrder(cut)
    ensures forall k :: k in cut <==> k in ks && IsCut(entries[k])
    ensures |Lost(entries, ks)| == |cut| && forall i :: 0 <= i < |cut| ==> Lost(entries, ks)[i] == entries[cut[i]].name
  {
    hide InTableOrder, Before;
    if ks == [] {
      cut := [];
      TrivialOrder();
    } else {
      TailInOrder(ks);
      var rest := LostAre(entries, ks[1..]);
      assert forall k :: k in ks <==> k == ks[0] || k in ks[1..];
      if IsCut(entries[ks[0]]) {
        InFront(ks[0], rest);
        cut := [ks[0]] + rest;
      } else {
        cut := rest;
      }
    }
  }

  lemma TrivialOrder()
    ensures InTableOrder([])
  {
  }

  /** A release reports the name of each connection it cut off, in the order of the table, and takes all its owner had. */
  lemma {:induction false} ReleaseReports(s: Net, owner: Caller) returns (cut: seq<Slot>)
    ensures var (t, report) := Release(s, owner);
      && InTableOrder(cut) && (forall k :: k in cut <==> Cut(s, owner, k))
      && |report| == |cut| && (forall i :: 0 <= i < |cut| ==> cut[i] in s.entries && report[i] == s.entries[cut[i]].name)
      && (forall k :: k in t.entries <==> k in s.entries && k.owner != owner)
      && (forall k :: k in t.entries ==> t.entries[k] == s.entries[k])
      && (forall o :: o in t.offers <==> o in s.offers && o.from != owner && o.to != owner)
  {
    AscendingInOrder(Owned(s.entries, owner));
    WithoutPartyExact(s.offers, owner);
    cut := LostAre(s.entries, Ascending(Owned(s.entries, owner)));
  }
}
