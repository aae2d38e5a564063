/**
 What owners are told - data, closes, endings, the report of a release - against
 what happened to their entries.
 */
module NetTold {
  import opened Prelude
  import opened NetState
  import opened NetSafety
  import opened NetTheorems
  import opened NetPromise

  // ----- data -----

  /** The data pushes among notices, each to its owner and under its queue. */
  function DataIn(ns: seq<Notice>): seq<Delivery> {
    if ns == [] then [] else
      var n := ns[|ns| - 1];
      DataIn(ns[..|ns| - 1])
      + if n.message.DataPush? then [Delivery(n.message.handle, n.message.data, n.owner, Some(n.queue))] else []
  }

  /** What of the deliveries was pushed. */
  function PushedIn(ds: seq<Delivery>): seq<Delivery> {
    if ds == [] then [] else
      var d := ds[|ds| - 1];
      PushedIn(ds[..|ds| - 1]) + if d.queue.Some? then [d] else []
  }

  /** What of the deliveries was a `recv` answer. */
  function ReceivedIn(ds: seq<Delivery>): seq<Delivery> {
    if ds == [] then [] else
      var d := ds[|ds| - 1];
      ReceivedIn(ds[..|ds| - 1]) + if d.queue.None? then [d] else []
  }

  /** The notices a step hands over. */
  ghost function NoticesOf(s: Net, step: Step): seq<Notice> {
    if step.NoticesStep? then TakeNotices(s).1 else []
  }

  /** The data a step answers its caller with. */
  ghost function AnswerOf(s: Net, step: Step): seq<Delivery> {
    if !step.RecvStep? then [] else
      match Recv(s, step.caller, step.handle).1
      case Ready(Ok(Got(data))) => [Delivery(step.handle, data, step.caller, None)]
      case _ => []
  }

  ghost function NoticesGiven(s: Net, steps: seq<Step>): seq<Notice>
    decreases |steps|
  {
    if steps == [] then [] else NoticesOf(s, steps[0]) + NoticesGiven(Next(s, steps[0]), steps[1..])
  }

  ghost function AnswersGiven(s: Net, steps: seq<Step>): seq<Delivery>
    decreases |steps|
  {
    if steps == [] then [] else AnswerOf(s, steps[0]) + AnswersGiven(Next(s, steps[0]), steps[1..])
  }

  lemma {:induction false} DataInAppend(a: seq<Notice>, b: seq<Notice>)
    ensures DataIn(a + b) == DataIn(a) + DataIn(b)
  {
    if b == [] {
      assert a + b == a;
    } else {
      assert (a + b)[..|a + b| - 1] == a + b[..|b| - 1];
      DataInAppend(a, b[..|b| - 1]);
    }
  }

  lemma {:induction false} PushedInAppend(a: seq<Delivery>, b: seq<Delivery>)
    ensures PushedIn(a + b) == PushedIn(a) + PushedIn(b) && ReceivedIn(a + b) == ReceivedIn(a) + ReceivedIn(b)
  {
    if b == [] {
      assert a + b == a;
    } else {
      assert (a + b)[..|a + b| - 1] == a + b[..|b| - 1];
      PushedInAppend(a, b[..|b| - 1]);
    }
  }

  lemma OneOfEach(n: Notice, d: Delivery)
    ensures DataIn([n])
         == if n.message.DataPush? then [Delivery(n.message.handle, n.message.data, n.owner, Some(n.queue))] else []
    ensures PushedIn([d]) == (if d.queue.Some? then [d] else []) && ReceivedIn([d]) == (if d.queue.None? then [d] else [])
  {
    assert [n][..0] == [] && [d][..0] == [];
    assert DataIn([]) == [] && PushedIn([]) == [] && ReceivedIn([]) == [];
  }

  /** From `s` to `t` notices `ns` joined the pushes and deliveries `d` the log, and they agree; `got` was answered. */
  ghost predicate Adds(s: Net, t: Net, ns: seq<Notice>, d: seq<Delivery>, got: seq<Delivery>) {
    && t.pushes == s.pushes + ns && t.log.handed == s.log.handed + d
    && DataIn(ns) == PushedIn(d) && ReceivedIn(d) == got
  }

  ghost predicate Tells(s: Net, t: Net, got: seq<Delivery>) {
    exists ns, d :: Adds(s, t, ns, d, got)
  }

  lemma SaysNothing(s: Net, t: Net)
    requires t.pushes == s.pushes && t.log.handed == s.log.handed
    ensures Tells(s, t, [])
  {
    assert Adds(s, t, [], [], []);
  }

  lemma {:induction false} TellsThen(s: Net, u: Net, t: Net, a: seq<Delivery>, b: seq<Delivery>)
    requires Tells(s, u, a) && Tells(u, t, b)
    ensures Tells(s, t, a + b)
    ensures a == [] ==> Tells(s, t, b)
  {
    hide DataIn, PushedIn, ReceivedIn;
    var n1, d1 :| Adds(s, u, n1, d1, a);
    var n2, d2 :| Adds(u, t, n2, d2, b);
    DataInAppend(n1, n2);
    PushedInAppend(d1, d2);
    assert Adds(s, t, n1 + n2, d1 + d2, a + b);
    assert a == [] ==> a + b == b;
  }

  lemma OneNotice(s: Net, t: Net, n: Notice)
    requires t.pushes == s.pushes + [n]
    requires t.log.handed == s.log.handed
             + if n.message.DataPush? then [Delivery(n.message.handle, n.message.data, n.owner, Some(n.queue))] else []
    ensures Tells(s, t, [])
  {
    hide DataIn, PushedIn, ReceivedIn;
    NoWords();
    if n.message.DataPush? {
      var d := Delivery(n.message.handle, n.message.data, n.owner, Some(n.queue));
      OneOfEach(n, d);
      assert Adds(s, t, [n], [d], []);
    } else {
      OneOfEach(n, Delivery(0, [], n.owner, None));
      assert Adds(s, t, [n], [], []);
    }
  }

  lemma NoWords()
    ensures DataIn([]) == PushedIn([]) == ReceivedIn([]) == []
  {
  }

  lemma DataTells(s: Net, k: Slot, data: Bytes)
    requires k in s.entries
    ensures Tells(s, RouteData(s, k, data), [])
  {
    var t := RouteData(s, k, data);
    if s.entries[k].gone.None? && s.entries[k].queue.Some? {
      OneNotice(s, t, Notice(k.owner, s.entries[k].queue.value, DataPush(k.handle, data)));
    } else {
      SaysNothing(s, t);
    }
  }

  lemma ClosedTells(s: Net, k: Slot, reason: Option<string>)
    requires k in s.entries
    ensures Tells(s, RouteClosed(s, k, reason), [])
  {
    var t := RouteClosed(s, k, reason);
    assert s.log.handed + [] == s.log.handed;
    if s.entries[k].gone.None? && s.entries[k].queue.Some? {
      OneNotice(s, t, Notice(k.owner, s.entries[k].queue.value, ClosedPush(k.handle, reason)));
    } else {
      SaysNothing(s, t);
    }
  }

  lemma AcceptedTells(s: Net, l: Slot, ev: Event)
    requires l in s.entries && ev.Accepted?
    ensures Tells(s, RouteAccepted(s, l, ev), [])
  {
    var t := RouteAccepted(s, l, ev);
    assert s.log.handed + [] == s.log.handed;
    if t.pushes == s.pushes {
      SaysNothing(s, t);
    } else {
      OneNotice(s, t, Notice(l.owner, s.entries[l].queue.value, AcceptedPush(l.handle, s.nextHandle, ev.peer)));
    }
  }

  lemma SameWords(s: Net, u: Net, v: Net, t: Net)
    requires u.pushes == s.pushes && u.log.handed == s.log.handed && t.pushes == v.pushes && t.log.handed == v.log.handed
    requires Tells(u, v, [])
    ensures Tells(s, t, [])
  {
    var ns, d :| Adds(u, v, ns, d, []);
    assert Adds(s, t, ns, d, []);
  }

  lemma {:induction false} HeadTells(s: Net)
    requires s.events != []
    ensures Tells(s, RouteHead(s), [])
  {
    hide Tells, RouteData, RouteClosed, RouteAccepted;
    var u := s.(events := s.events[1..]);
    var ev := s.events[0];
    var k := SlotOf(s.entries, if ev.Accepted? then ev.listener else ev.key);
    if k.None? {
      SaysNothing(s, RouteHead(s));
    } else {
      match ev
      case Data(_, data) =>
        DataTells(u, k.value, data);
        SameWords(s, u, RouteData(u, k.value, data), RouteHead(s));
      case Closed(_, reason) =>
        ClosedTells(u, k.value, reason);
        SameWords(s, u, RouteClosed(u, k.value, reason), RouteHead(s));
      case Accepted(_, _, _, _) =>
        AcceptedTells(u, k.value, ev);
        SameWords(s, u, RouteAccepted(u, k.value, ev), RouteHead(s));
    }
  }

  lemma {:induction false} SweepTells(s: Net)
    ensures Tells(s, Sweep(s), [])
    decreases |s.events|
  {
    hide Tells, RouteHead;
    if s.events == [] {
      SaysNothing(s, s);
    } else {
      HeadTells(s);
      HeadReports(s);
      SweepTells(RouteHead(s));
      assert Sweep(s) == Sweep(RouteHead(s));
      TellsThen(s, RouteHead(s), Sweep(s), [], []);
    }
  }

  // ----- taking an entry over -----

  /** What is unread, one push each and in order, and then the close if the far end is gone. */
  ghost predicate Unread(ns: seq<Notice>, owner: Caller, queue: string, handle: nat, e: Entry) {
    && |ns| == |e.inbound| + (if e.gone.Some? then 1 else 0)
    && (forall i :: 0 <= i < |e.inbound| ==> ns[i] == Notice(owner, queue, DataPush(handle, e.inbound[i])))
    && (e.gone.Some? ==> ns[|e.inbound|] == Notice(owner, queue, ClosedPush(handle, e.gone.value)))
  }

  /** `k`'s entry `e` is now its owner's with these declarations, and what was unread went where they say. */
  ghost predicate TakenOver(s: Net, t: Net, k: Slot, e: Entry, queue: Option<string>, vital: bool) {
    && k in t.entries
    && t.entries[k] == e.(waiting := None, queue := queue, vital := vital, inbound := if queue.Some? then [] else e.inbound)
    && if queue.None? then t.pushes == s.pushes
       else exists ns :: t.pushes == s.pushes + ns && Unread(ns, k.owner, queue.value, k.handle, e)
  }

  lemma {:induction false} PushesAre(owner: Caller, queue: string, handle: nat, inbound: seq<Bytes>)
    ensures var ns := DataPushes(owner, queue, handle, inbound);
      |ns| == |inbound| && forall i :: 0 <= i < |ns| ==> ns[i] == Notice(owner, queue, DataPush(handle, inbound[i]))
  {
    if inbound != [] {
      PushesAre(owner, queue, handle, inbound[1..]);
    }
  }

  lemma {:induction false} AdoptTakesOver(s: Net, k: Slot, queue: Option<string>, vital: bool)
    requires k in s.entries
    ensures TakenOver(s, Adopt(s, k, queue, vital), k, s.entries[k], queue, vital)
  {
    if queue.Some? {
      var e := s.entries[k].(waiting := None, vital := vital, queue := queue);
      PushesAre(k.owner, queue.value, k.handle, e.inbound);
      assert Unread(Flush(e, k), k.owner, queue.value, k.handle, s.entries[k]);
    }
  }

  /** An accept gives its caller what the connection had buffered while it waited, as its declarations say. */
  lemma {:induction false} AcceptGives(s: Net, caller: Caller, listener: nat, queue: Option<string>, vital: bool, h: nat, peer: string)
    requires Accept(s, caller, listener, queue, vital).1 == Ready(Ok((h, peer)))
    ensures var u, t := Sweep(s), Accept(s, caller, listener, queue, vital).0;
      var k := Slot(caller, h);
      k in u.entries && u.entries[k].waiting == Some(listener) && peer == u.entries[k].name
      && TakenOver(u, t, k, u.entries[k], queue, vital)
  {
    var u := Sweep(s);
    OldestWaits(u, caller, listener, h);
    hide Sweep;
    AdoptTakesOver(u, Slot(caller, h), queue, vital);
    hide Adopt;
  }

  lemma OldestWaits(s: Net, caller: Caller, listener: nat, h: nat)
    ensures OldestWaiting(s, caller, listener) == Some(h)
            ==> Slot(caller, h) in s.entries && s.entries[Slot(caller, h)].waiting == Some(listener)
  {
    var w := Ascending(WaitingUnder(s.entries, caller, listener));
    if w != [] {
      assert w[0] in w;
    }
  }

  /** And a claim what the offerer had left unread. */
  lemma {:induction false} ClaimGives(s: Net, caller: Caller, named: Option<nat>, queue: Option<string>, vital: bool, h: nat, name: string, listener: bool)
    requires Claim(s, caller, named, queue, vital).1 == Ready(Ok((h, name, listener)))
    ensures var t := Claim(s, caller, named, queue, vital).0;
      exists o :: o in s.offers && Fits(o, caller, named) && o.handle == h && Slot(o.from, h) in s.entries
        && name == s.entries[Slot(o.from, h)].name && listener == s.entries[Slot(o.from, h)].listener
        && TakenOver(s, t, Slot(caller, h), s.entries[Slot(o.from, h)], queue, vital)
  {
    var i := FirstOffer(s.offers, caller, named).value;
    var o := s.offers[i];
    var from, to := Slot(o.from, h), Slot(caller, h);
    var u := s.(offers := s.offers[..i] + s.offers[i + 1..], entries := (s.entries - {from})[to := s.entries[from]]);
    AdoptTakesOver(u, to, queue, vital);
    hide Adopt;
    assert TakenOver(s, Adopt(u, to, queue, vital), to, s.entries[from], queue, vital);
    assert o in s.offers;
  }

  lemma {:induction false} FlushAdds(k: Slot, e: Entry)
    requires e.queue.Some?
    ensures DataIn(Flush(e, k)) == PushedIn(Deliveries(k, e.queue, e.inbound))
    ensures ReceivedIn(Deliveries(k, e.queue, e.inbound)) == []
  {
    PushesDeliver(k, e.queue.value, e.inbound);
    if e.gone.Some? {
      var c := Notice(k.owner, e.queue.value, ClosedPush(k.handle, e.gone.value));
      DataInAppend(DataPushes(k.owner, e.queue.value, k.handle, e.inbound), [c]);
      OneOfEach(c, Delivery(0, [], Root, None));
    } else {
      assert Flush(e, k) == DataPushes(k.owner, e.queue.value, k.handle, e.inbound);
    }
  }

  lemma {:induction false} PushesDeliver(k: Slot, queue: string, inbound: seq<Bytes>)
    ensures DataIn(DataPushes(k.owner, queue, k.handle, inbound)) == PushedIn(Deliveries(k, Some(queue), inbound))
    ensures ReceivedIn(Deliveries(k, Some(queue), inbound)) == []
  {
    if inbound != [] {
      var n := Notice(k.owner, queue, DataPush(k.handle, inbound[0]));
      var d := Delivery(k.handle, inbound[0], k.owner, Some(queue));
      PushesDeliver(k, queue, inbound[1..]);
      OneOfEach(n, d);
      DataInAppend([n], DataPushes(k.owner, queue, k.handle, inbound[1..]));
      PushedInAppend([d], Deliveries(k, Some(queue), inbound[1..]));
    }
  }

  lemma AdoptTells(s: Net, k: Slot, queue: Option<string>, vital: bool)
    requires k in s.entries
    ensures Tells(s, Adopt(s, k, queue, vital), [])
  {
    var t := Adopt(s, k, queue, vital);
    if queue.None? {
      SaysNothing(s, t);
    } else {
      var e := s.entries[k].(waiting := None, vital := vital, queue := queue);
      FlushAdds(k, e);
      hide Flush, Deliveries;
      assert Adds(s, t, Flush(e, k), Deliveries(k, queue, e.inbound), []);
    }
  }

  // ----- every step -----

  lemma {:induction false} AcceptTells(s: Net, caller: Caller, listener: nat, queue: Option<string>, vital: bool)
    ensures Tells(s, AcceptLook(s, caller, listener, queue, vital).0, [])
  {
    hide Adopt, Tells;
    var t := AcceptLook(s, caller, listener, queue, vital).0;
    if t == s {
      SaysNothing(s, t);
    } else {
      AdoptTells(s, Slot(caller, OldestWaiting(s, caller, listener).value), queue, vital);
    }
  }

  lemma {:induction false} RecvTells(s: Net, caller: Caller, handle: nat)
    ensures var (t, r) := RecvLook(s, caller, handle);
      Tells(s, t, match r
                  case Ready(Ok(Got(data))) => [Delivery(handle, data, caller, None)]
                  case _ => [])
  {
    var (t, r) := RecvLook(s, caller, handle);
    if r.Ready? && r.answer.Ok? && r.answer.value.Got? {
      var d := Delivery(handle, r.answer.value.data, caller, None);
      OneOfEach(Notice(Root, "", ClosedPush(0, None)), d);
      assert Adds(s, t, [], [d], [d]);
    } else {
      SaysNothing(s, t);
    }
  }

  lemma {:induction false} ClaimTells(s: Net, caller: Caller, named: Option<nat>, queue: Option<string>, vital: bool)
    ensures Tells(s, Claim(s, caller, named, queue, vital).0, [])
  {
    hide Adopt, Tells;
    var t := Claim(s, caller, named, queue, vital).0;
    match FirstOffer(s.offers, caller, named)
    case None => SaysNothing(s, t);
    case Some(i) =>
      var o := s.offers[i];
      var from, to := Slot(o.from, o.handle), Slot(caller, o.handle);
      if from !in s.entries {
        SaysNothing(s, t);
      } else {
        var u := s.(offers := s.offers[..i] + s.offers[i + 1..], entries := (s.entries - {from})[to := s.entries[from]]);
        AdoptTells(u, to, queue, vital);
        SameWords(s, u, t, t);
      }
  }

  /** The steps that say nothing to anybody. */
  lemma QuietStep(s: Net, step: Step)
    requires !Sweeps(step) && !step.ClaimStep? && !step.DropStep?
    ensures Next(s, step).pushes == s.pushes && Next(s, step).log.handed == s.log.handed
  {
  }

  lemma {:induction false} StepTells(s: Net, step: Step)
    requires !step.NoticesStep? && !step.DropStep?
    ensures Tells(s, Next(s, step), AnswerOf(s, step))
  {
    var u := Sweep(s);
    if step.ClaimStep? {
      ClaimTells(s, step.caller, step.named, step.queue, step.vital);
    } else if Sweeps(step) {
      SweepTells(s);
      hide Sweep, Tells, AcceptLook, RecvLook;
      match step
      case AcceptStep(caller, handle, queue, vital) =>
        AcceptTells(u, caller, handle, queue, vital);
        TellsThen(s, u, Next(s, step), [], []);
        case RecvStep(caller, handle) =>
        RecvTells(u, caller, handle);
        TellsThen(s, u, Next(s, step), [], AnswerOf(s, step));
        assert [] + AnswerOf(s, step) == AnswerOf(s, step);
      case _ => SameWords(s, s, u, Next(s, step));
    } else {
      QuietStep(s, step);
      SaysNothing(s, Next(s, step));
    }
  }

  /** What was handed over, with what still waits to be, is what the log says was delivered. */
  ghost predicate Accounted(s: Net, t: Net, given: seq<Notice>, got: seq<Delivery>) {
    && s.log.handed <= t.log.handed
    && var d := t.log.handed[|s.log.handed|..];
      && ReceivedIn(d) == got
      && DataIn(given) <= DataIn(s.pushes) + PushedIn(d)
      && (!t.log.dropped ==> DataIn(given + t.pushes) == DataIn(s.pushes) + PushedIn(d))
  }

  lemma TellsAccounts(s: Net, t: Net, got: seq<Delivery>)
    requires Tells(s, t, got)
    ensures Accounted(s, t, [], got)
  {
    var ns, d :| Adds(s, t, ns, d, got);
    DataInAppend(s.pushes, ns);
    assert t.log.handed[|s.log.handed|..] == d;
    assert [] + t.pushes == t.pushes;
  }

  lemma {:induction false} NoticesAccount(s: Net)
    requires !s.log.dropped
    ensures Accounted(s, TakeNotices(s).0, TakeNotices(s).1, [])
  {
    hide Sweep, Tells;
    var u, t := Sweep(s), TakeNotices(s).0;
    SweepTells(s);
    TellsAccounts(s, u, []);
    SweepNotDropped(s);
    assert [] + u.pushes == u.pushes + t.pushes == u.pushes;
  }

  lemma {:induction false} DropAccounts(s: Net)
    ensures Accounted(s, Dropped(s), [], [])
  {
    assert Dropped(s).log.handed[|s.log.handed|..] == [];
  }

  lemma {:induction false} StepAccounts(s: Net, step: Step)
    requires Possible(s, step)
    ensures Accounted(s, Next(s, step), NoticesOf(s, step), AnswerOf(s, step))
  {
    hide Accounted, Tells, TakeNotices, Dropped, Sweep;
    if step.NoticesStep? {
      NoticesAccount(s);
    } else if step.DropStep? {
      DropAccounts(s);
    } else {
      StepTells(s, step);
      TellsAccounts(s, Next(s, step), AnswerOf(s, step));
    }
  }

  lemma {:induction false} SweepNotDropped(s: Net)
    ensures Sweep(s).log.dropped == s.log.dropped
    decreases |s.events|
  {
    if s.events != [] {
      HeadReports(s);
      HeadNotDropped(s);
      SweepNotDropped(RouteHead(s));
    }
  }

  lemma HeadNotDropped(s: Net)
    requires s.events != []
    ensures RouteHead(s).log.dropped == s.log.dropped
  {
    hide RouteData, RouteClosed, RouteAccepted;
    var u, ev := s.(events := s.events[1..]), s.events[0];
    var k := SlotOf(s.entries, if ev.Accepted? then ev.listener else ev.key);
    if k.Some? {
      RoutesNotDropped(u, k.value, ev);
    }
  }

  lemma RoutesNotDropped(s: Net, k: Slot, ev: Event)
    requires k in s.entries
    ensures ev.Data? ==> RouteData(s, k, ev.data).log.dropped == s.log.dropped
    ensures ev.Closed? ==> RouteClosed(s, k, ev.reason).log.dropped == s.log.dropped
    ensures ev.Accepted? ==> RouteAccepted(s, k, ev).log.dropped == s.log.dropped
  {
    hide Arrived, WaitingUnder;
  }

  /** The same of sequences: what was given, what was pending before, between and after, and what was delivered. */
  lemma Chains(s: seq<Delivery>, u: seq<Delivery>, t: seq<Delivery>, g1: seq<Delivery>, g2: seq<Delivery>, p1: seq<Delivery>, p2: seq<Delivery>)
    requires g1 + u == s + p1 && g2 <= u + p2
    ensures g1 + g2 <= s + (p1 + p2)
    ensures g2 + t == u + p2 ==> g1 + g2 + t == s + (p1 + p2)
  {
    assert g1 + (u + p2) == (g1 + u) + p2 == (s + p1) + p2 == s + (p1 + p2);
    assert g1 + g2 <= g1 + (u + p2);
  }

  lemma {:induction false} AccountsThen(s: Net, u: Net, t: Net, n1: seq<Notice>, n2: seq<Notice>, a: seq<Delivery>, b: seq<Delivery>)
    requires Accounted(s, u, n1, a) && Accounted(u, t, n2, b) && (u.log.dropped ==> t.log.dropped && n2 == [])
    ensures Accounted(s, t, n1 + n2, a + b)
  {
    var d1, d2 := u.log.handed[|s.log.handed|..], t.log.handed[|u.log.handed|..];
    var d := t.log.handed[|s.log.handed|..];
    assert d == d1 + d2;
    PushedInAppend(d1, d2);
    hide DataIn, PushedIn, ReceivedIn;
    if u.log.dropped {
      assert n1 + n2 == n1;
      assert DataIn(s.pushes) + PushedIn(d1) <= DataIn(s.pushes) + PushedIn(d);
    } else {
      DataInAppend(n1, n2);
      DataInAppend(n1, u.pushes);
      DataInAppend(n2, t.pushes);
      DataInAppend(n1 + n2, t.pushes);
      Chains(DataIn(s.pushes), DataIn(u.pushes), DataIn(t.pushes), DataIn(n1), DataIn(n2), PushedIn(d1), PushedIn(d2));
    }
  }

  lemma StaysDropped(s: Net, step: Step)
    requires s.log.dropped && Possible(s, step)
    ensures Next(s, step).log.dropped && NoticesOf(s, step) == []
  {
  }

  lemma {:induction false} NothingGivenAfter(s: Net, steps: seq<Step>)
    requires s.log.dropped && Runs(s, steps)
    ensures After(s, steps).log.dropped && NoticesGiven(s, steps) == []
    decreases |steps|
  {
    hide Next, NoticesOf, Possible;
    if steps != [] {
      StaysDropped(s, steps[0]);
      NothingGivenAfter(Next(s, steps[0]), steps[1..]);
    }
  }

  lemma {:induction false} RunAccounts(s: Net, steps: seq<Step>)
    requires Runs(s, steps)
    ensures Accounted(s, After(s, steps), NoticesGiven(s, steps), AnswersGiven(s, steps))
    decreases |steps|
  {
    hide Next, NoticesOf, AnswerOf, Possible, Accounted;
    if steps == [] {
      SaysNothing(s, s);
      TellsAccounts(s, s, []);
    } else {
      var u := Next(s, steps[0]);
      StepAccounts(s, steps[0]);
      RunAccounts(u, steps[1..]);
      if u.log.dropped {
        NothingGivenAfter(u, steps[1..]);
      }
      AccountsThen(s, u, After(s, steps), NoticesOf(s, steps[0]), NoticesGiven(u, steps[1..]),
                   AnswerOf(s, steps[0]), AnswersGiven(u, steps[1..]));
    }
  }

  /**
   Over any run: the data notices taken, then those still pending, are the pushed
   deliveries of the log, each to its owner under its queue, in order; the answers of
   `recv` are the others. What is pending when the connector goes is lost with it.
   */
  lemma {:induction false} PushesAreDelivered(steps: seq<Step>)
    requires Runs(Fresh, steps)
    ensures var t := After(Fresh, steps);
      && AnswersGiven(Fresh, steps) == ReceivedIn(t.log.handed)
      && DataIn(NoticesGiven(Fresh, steps)) <= PushedIn(t.log.handed)
      && (!t.log.dropped ==> DataIn(NoticesGiven(Fresh, steps) + t.pushes) == PushedIn(t.log.handed))
  {
    RunAccounts(Fresh, steps);
    var t := After(Fresh, steps);
    assert t.log.handed[|Fresh.log.handed|..] == t.log.handed;
    assert DataIn(Fresh.pushes) + PushedIn(t.log.handed) == PushedIn(t.log.handed);
  }

  // ----- under whose name -----

  /** A delivery was to the entry's owner; a push under the queue it declared. */
  ghost predicate Addressed(t: Net, d: Delivery) {
    var k := Slot(d.to, d.handle);
    k in t.entries && (d.queue.Some? ==> t.entries[k].queue == d.queue)
  }

  /** Entries stay, with their owners' queues. */
  ghost predicate QueuesStay(s: Net, t: Net) {
    forall k :: k in s.entries ==> k in t.entries && t.entries[k].queue == s.entries[k].queue
  }

  lemma HeadDelivers(s: Net)
    requires Numbered(s) && s.events != []
    ensures var t := RouteHead(s);
      && QueuesStay(s, t)
      && (t.log.handed == s.log.handed
          || exists d :: t.log.handed == s.log.handed + [d] && d.queue.Some? && Addressed(t, d))
  {
    var u := s.(events := s.events[1..]);
    var ev := s.events[0];
    var t := RouteHead(s);
    hide RouteAccepted, RouteData, RouteClosed;
    match ev
    case Data(key, data) =>
      var k := SlotOf(s.entries, key);
      if k.Some? { DataDelivers(u, k.value, data); }
    case Closed(key, reason) =>
      var k := SlotOf(s.entries, key);
      if k.Some? { ClosedDelivers(u, k.value, reason); }
    case Accepted(_, listener, _, _) =>
      var l := SlotOf(s.entries, listener);
      if l.Some? { AcceptedDelivers(u, l.value, ev); }
  }

  lemma DataDelivers(s: Net, k: Slot, data: Bytes)
    requires k in s.entries
    ensures var t := RouteData(s, k, data);
      && QueuesStay(s, t)
      && t.log.handed == s.log.handed
         + if s.entries[k].gone.None? && s.entries[k].queue.Some? then [Delivery(k.handle, data, k.owner, s.entries[k].queue)] else []
  {
    assert s.log.handed + [] == s.log.handed;
  }

  lemma ClosedDelivers(s: Net, k: Slot, reason: Option<string>)
    requires k in s.entries
    ensures QueuesStay(s, RouteClosed(s, k, reason)) && RouteClosed(s, k, reason).log.handed == s.log.handed
  {
  }

  lemma AcceptedDelivers(s: Net, l: Slot, ev: Event)
    requires l in s.entries && ev.Accepted? && forall k :: k in s.entries ==> k.handle != s.nextHandle
    ensures QueuesStay(s, RouteAccepted(s, l, ev)) && RouteAccepted(s, l, ev).log.handed == s.log.handed
  {
  }

  /** What joined the log between `s` and `t` was pushed by rights, or answered `got`. */
  ghost predicate Delivers(s: Net, t: Net, got: Option<Slot>) {
    && s.log.handed <= t.log.handed
    && forall i :: |s.log.handed| <= i < |t.log.handed| ==>
         && Addressed(t, t.log.handed[i])
         && (t.log.handed[i].queue.None? ==> got == Some(Slot(t.log.handed[i].to, t.log.handed[i].handle)))
  }

  lemma {:induction false} DeliversThen(s: Net, u: Net, t: Net, got: Option<Slot>)
    requires Delivers(s, u, None) && Delivers(u, t, got) && forall k :: k in u.entries && u.entries[k].queue.Some? ==>
               k in t.entries && t.entries[k].queue == u.entries[k].queue
    ensures Delivers(s, t, got)
  {
    forall i | |s.log.handed| <= i < |t.log.handed|
      ensures Addressed(t, t.log.handed[i])
      ensures t.log.handed[i].queue.None? ==> got == Some(Slot(t.log.handed[i].to, t.log.handed[i].handle))
    {
      if i < |u.log.handed| {
        assert t.log.handed[i] == u.log.handed[i] && Addressed(u, u.log.handed[i]);
      }
    }
  }

  lemma HeadIsDelivered(s: Net)
    requires Inv(s) && s.events != []
    ensures Delivers(s, RouteHead(s), None) && QueuesStay(s, RouteHead(s))
  {
    assert Numbered(s);
    HeadDelivers(s);
    hide Inv, Numbered, RouteHead;
  }

  lemma QueuesStayOn(s: Net, u: Net, t: Net)
    requires QueuesStay(s, u) && QueuesStay(u, t)
    ensures QueuesStay(s, t)
  {
  }

  lemma {:induction false} SweepDelivers(s: Net)
    requires Inv(s)
    ensures Delivers(s, Sweep(s), None) && QueuesStay(s, Sweep(s))
    decreases |s.events|
  {
    hide Inv, RouteHead, Delivers, QueuesStay;
    if s.events == [] {
      SameDelivered(s);
    } else {
      var u := RouteHead(s);
      HeadIsDelivered(s);
      HeadReports(s);
      RouteInv(s);
      SweepDelivers(u);
      assert Sweep(s) == Sweep(u);
      QueuesStayOn(s, u, Sweep(u));
      StayingQueues(u, Sweep(u));
      DeliversThen(s, u, Sweep(u), None);
    }
  }

  lemma SameDelivered(s: Net)
    ensures Delivers(s, s, None) && QueuesStay(s, s)
  {
  }

  lemma AdoptDelivers(s: Net, k: Slot, queue: Option<string>, vital: bool)
    requires k in s.entries
    ensures Delivers(s, Adopt(s, k, queue, vital), None)
    ensures forall j :: j in s.entries && j != k ==> j in Adopt(s, k, queue, vital).entries && Adopt(s, k, queue, vital).entries[j] == s.entries[j]
  {
    if queue.Some? {
      DeliveriesAre(k, queue, s.entries[k].inbound);
    }
  }

  lemma {:induction false} DeliveriesAre(k: Slot, queue: Option<string>, inbound: seq<Bytes>)
    ensures forall i :: 0 <= i < |Deliveries(k, queue, inbound)| ==>
              Deliveries(k, queue, inbound)[i].to == k.owner && Deliveries(k, queue, inbound)[i].handle == k.handle
              && Deliveries(k, queue, inbound)[i].queue == queue
  {
    if inbound != [] {
      DeliveriesAre(k, queue, inbound[1..]);
    }
  }

  lemma {:induction false} AcceptDelivers(s: Net, caller: Caller, listener: nat, queue: Option<string>, vital: bool)
    requires Tidy(s)
    ensures var t := AcceptLook(s, caller, listener, queue, vital).0;
      && Delivers(s, t, None)
      && forall k :: k in s.entries && s.entries[k].queue.Some? ==> k in t.entries && t.entries[k].queue == s.entries[k].queue
  {
    hide Adopt;
    var t := AcceptLook(s, caller, listener, queue, vital).0;
    if t != s {
      var k := Slot(caller, OldestWaiting(s, caller, listener).value);
      OldestWaits(s, caller, listener, k.handle);
      assert TidyEntry(s, s.entries[k]);
      AdoptDelivers(s, k, queue, vital);
    }
  }

  lemma {:induction false} RecvDelivers(s: Net, caller: Caller, handle: nat)
    ensures var t := RecvLook(s, caller, handle).0;
      Delivers(s, t, Some(Slot(caller, handle))) && QueuesStay(s, t)
  {
  }

  lemma {:induction false} ClaimDelivers(s: Net, caller: Caller, named: Option<nat>, queue: Option<string>, vital: bool)
    ensures Delivers(s, Claim(s, caller, named, queue, vital).0, None)
  {
    hide Adopt;
    match FirstOffer(s.offers, caller, named)
    case None =>
    case Some(i) =>
      var o := s.offers[i];
      var from, to := Slot(o.from, o.handle), Slot(caller, o.handle);
      if from in s.entries {
        AdoptDelivers(s.(offers := s.offers[..i] + s.offers[i + 1..], entries := (s.entries - {from})[to := s.entries[from]]), to, queue, vital);
      }
  }

  /** In any step, data goes to the owner of its entry: pushed under the queue it declared, or as the answer to its own `recv`. */
  lemma {:induction false} DeliveredToOwner(s: Net, step: Step)
    requires Reachable(s) && Possible(s, step)
    ensures Delivers(s, Next(s, step), if step.RecvStep? then Some(Slot(step.caller, step.handle)) else None)
  {
    hide Inv, Reachable, Delivers, Next, Possible;
    ReachableInv(s);
    if Sweeps(step) {
      SweepingDelivers(s, step);
    } else if step.ClaimStep? {
      assert Next(s, step) == Claim(s, step.caller, step.named, step.queue, step.vital).0 by { NextClaims(s, step); }
      ClaimDelivers(s, step.caller, step.named, step.queue, step.vital);
    } else {
      NothingDelivered(s, step);
    }
  }

  lemma NextClaims(s: Net, step: Step)
    requires step.ClaimStep?
    ensures Next(s, step) == Claim(s, step.caller, step.named, step.queue, step.vital).0
  {
    hide Claim;
  }

  lemma {:induction false} SweepingDelivers(s: Net, step: Step)
    requires Inv(s) && Sweeps(step)
    ensures Delivers(s, Next(s, step), if step.RecvStep? then Some(Slot(step.caller, step.handle)) else None)
  {
    hide Inv, Sweep, Delivers, QueuesStay, Next;
    var u, t := Sweep(s), Next(s, step);
    SweepInv(s);
    SweepDelivers(s);
    AfterSweep(s, step);
    if step.AcceptStep? {
      InvTidy(u);
      AcceptDelivers(u, step.caller, step.handle, step.queue, step.vital);
      hide AcceptLook;
      DeliversThen(s, u, t, None);
    } else if step.RecvStep? {
      RecvDelivers(u, step.caller, step.handle);
      StayingQueues(u, t);
      hide RecvLook;
      DeliversThen(s, u, t, Some(Slot(step.caller, step.handle)));
    } else {
      SameDelivers(s, u, t);
    }
  }

  lemma AfterSweep(s: Net, step: Step)
    requires Sweeps(step)
    ensures var u, t := Sweep(s), Next(s, step);
      match step
      case AcceptStep(caller, handle, queue, vital) => t == AcceptLook(u, caller, handle, queue, vital).0
      case RecvStep(caller, handle) => t == RecvLook(u, caller, handle).0
      case _ => t.entries == u.entries && t.log.handed == u.log.handed
  {
    hide Sweep, AcceptLook, RecvLook;
  }

  lemma InvTidy(s: Net)
    requires Inv(s)
    ensures Tidy(s)
  {
  }

  lemma StayingQueues(s: Net, t: Net)
    requires QueuesStay(s, t)
    ensures forall k :: k in s.entries && s.entries[k].queue.Some? ==> k in t.entries && t.entries[k].queue == s.entries[k].queue
  {
  }

  lemma SameDelivers(s: Net, u: Net, t: Net)
    requires Delivers(s, u, None) && t.entries == u.entries && t.log.handed == u.log.handed
    ensures Delivers(s, t, None)
  {
  }

  lemma NothingDelivered(s: Net, step: Step)
    requires !Sweeps(step) && !step.ClaimStep?
    ensures Delivers(s, Next(s, step), None)
  {
    assert Next(s, step).log.handed == s.log.handed;
  }
}
