/**
 Connectors on one bus: every call of every connector, with what the bus does for
 it, and what the two ends of a connection know of each other in every run.
 */
module BusWorld {
  import opened Prelude
  import N = NetState
  import NS = NetSafety
  import NT = NetTheorems
  import B = BusState

  /**
   `home` is the link each end's news goes to, `peer` its other end, `sent` what
   the successful sends on it carried, and `shut` the ends closed first of their
   pair.
   */
  datatype World = World(
    nets: map<nat, N.Net>,
    bus: B.BusState,
    home: map<nat, B.Link>,
    peer: map<nat, nat>,
    sent: map<nat, seq<Bytes>>,
    shut: set<nat>)

  datatype Step =
    | Open(net: nat, caller: N.Caller, address: string, queue: Option<string>, vital: bool)
    | Listen(net: nat, caller: N.Caller, address: string, queue: Option<string>)
    | Send(net: nat, caller: N.Caller, handle: nat, data: Bytes)
    | Local(net: nat, step: NS.Step)

  /** The steps a connector does without asking the bus for more than `close`. */
  predicate IsLocal(step: NS.Step) {
    step.SweepStep? || step.AcceptStep? || step.RecvStep? || step.CloseStep? || step.TransferStep?
    || step.ClaimStep? || step.ReleaseStep? || step.DropStep? || step.EndedStep? || step.NoticesStep?
  }

  /** A connector that has gone makes no more steps of its own. */
  predicate Possible(w: World, step: Step) {
    step.net in w.nets && !w.nets[step.net].log.dropped && (step.Local? ==> IsLocal(step.step))
  }

  function Tell(w: World, l: B.Link, ev: N.Event): World {
    if l.net in w.nets then w.(nets := w.nets[l.net := N.Report(w.nets[l.net], ev)]) else w
  }

  /** `transport.close` on one end. */
  function CloseEnd(w: World, c: nat): World {
    if c !in w.bus.ends then w else
      var (bus, told) := B.Close(w.bus, c);
      var w1 := w.(bus := bus, shut := if w.bus.ends[c].other.Some? then w.shut + {c} else w.shut);
      if told.Some? then Tell(w1, told.value, N.Closed(told.value.key, Some(B.FAR_CLOSED))) else w1
  }

  function CloseEnds(w: World, cs: seq<nat>): World
    decreases |cs|
  {
    if cs == [] then w else CloseEnds(CloseEnd(w, cs[0]), cs[1..])
  }

  ghost function LocalStep(w: World, n: nat, step: NS.Step): World
    requires n in w.nets
  {
    var s := w.nets[n];
    var t := NS.Next(s, step);
    var cs := if |s.log.closes| <= |t.log.closes| then t.log.closes[|s.log.closes|..] else [];
    CloseEnds(w.(nets := w.nets[n := t]), cs)
  }

  /** `net/open` on a bus with a listener at the address. */
  function OpenStep(w: World, n: nat, caller: N.Caller, address: string, queue: Option<string>, vital: bool): World
    requires n in w.nets
  {
    var s := w.nets[n];
    var begun := N.BeginOpen(s, caller, address, queue, vital);
    var w1 := w.(nets := w.nets[n := begun]);
    if address !in w.bus.listeners || w.bus.listeners[address].net !in w.nets
    then w1.(nets := w1.nets[n := N.Settle(begun, caller, s.nextHandle, Err("nobody listens on '" + address + "'"))])
    else
      var w2 := ConnectEnds(w1, B.Link(n, s.nextKey), w.bus.listeners[address], address + "-peer");
      w2.(nets := w2.nets[n := N.Settle(w2.nets[n], caller, s.nextHandle, Ok(w.bus.nextEnd))])
  }

  /** `Bus::open`: two new ends, and the news of the arrival. */
  function ConnectEnds(w: World, home: B.Link, acceptor: B.Link, peer: string): World
    requires acceptor.net in w.nets
  {
    var mine, theirs := w.bus.nextEnd, w.bus.nextEnd + 1;
    var far := w.nets[acceptor.net];
    var farHome := B.Link(acceptor.net, far.nextKey);
    w.(nets := w.nets[acceptor.net := N.Arrive(far, acceptor.key, theirs, peer)],
       bus := B.Connect(w.bus, home, farHome),
       home := w.home[mine := home][theirs := farHome],
       peer := w.peer[mine := theirs][theirs := mine],
       sent := w.sent[mine := []][theirs := []])
  }

  function ListenStep(w: World, n: nat, caller: N.Caller, address: string, queue: Option<string>): World
    requires n in w.nets
  {
    var s := w.nets[n];
    var begun := N.BeginListen(s, caller, address, queue);
    match B.Listen(w.bus, address, B.Link(n, s.nextKey))
    case Ok(bus) =>
      w.(nets := w.nets[n := N.Settle(begun, caller, s.nextHandle, Ok(w.bus.nextEnd))],
         bus := bus,
         home := w.home[w.bus.nextEnd := B.Link(n, s.nextKey)])
    case Err(why) =>
      w.(nets := w.nets[n := N.Settle(begun, caller, s.nextHandle, Err(why))])
  }

  /** `net/send`: the world after it, and whether it succeeded. */
  function SendStep(w: World, n: nat, caller: N.Caller, handle: nat, data: Bytes): (World, bool)
    requires n in w.nets
  {
    var conn := N.SendOn(w.nets[n], caller, handle, data);
    if conn.Err? || conn.value !in w.bus.ends || B.Send(w.bus, conn.value).Err? then (w, false)
    else
      var a := conn.value;
      var link := B.Send(w.bus, a).value;
      (Tell(w.(sent := w.sent[a := (if a in w.sent then w.sent[a] else []) + [data]]), link, N.Data(link.key, data)), true)
  }

  ghost function Next(w: World, step: Step): World
    requires step.net in w.nets
  {
    match step
    case Open(n, caller, address, queue, vital) => OpenStep(w, n, caller, address, queue, vital)
    case Listen(n, caller, address, queue) => ListenStep(w, n, caller, address, queue)
    case Send(n, caller, handle, data) => SendStep(w, n, caller, handle, data).0
    case Local(n, step) => LocalStep(w, n, step)
  }

  // ----- what a connector knows of its Conns -----

  /** Each Conn is held under the key of its own link. */
  ghost predicate Bound(s: N.Net, n: nat, home: map<nat, B.Link>) {
    && (forall c :: c in s.log.holder && s.log.holder[c] in s.log.keyOf
          ==> c in home && home[c] == B.Link(n, s.log.keyOf[s.log.holder[c]]))
    && (forall i :: 0 <= i < |s.events| && s.events[i].Accepted?
          ==> s.events[i].conn in home && home[s.events[i].conn] == B.Link(n, s.events[i].key))
  }

  function TimesClosed(evs: seq<N.Event>, key: nat): nat {
    if evs == [] then 0 else
      var last := evs[|evs| - 1];
      TimesClosed(evs[..|evs| - 1], key) + if last.Closed? && last.key == key then 1 else 0
  }

  /** No data was reported on the key after its close. */
  ghost predicate Final(evs: seq<N.Event>, key: nat) {
    NS.DataOf(NS.BeforeClose(evs, key), key) == NS.DataOf(evs, key)
  }

  ghost predicate Linked(w: World, l: B.Link) {
    l.net in w.nets && l.key < w.nets[l.net].nextKey
  }

  /** What the connector an end reports to has been told on that end's link. */
  ghost function Heard(w: World, c: nat): seq<N.Event>
    requires c in w.home && w.home[c].net in w.nets
  {
    NS.Reports(w.nets[w.home[c].net])
  }

  /** One pair of ends: both open and joined, or both dead and one of them told. */
  ghost predicate PairKept(w: World, a: nat) {
    && a in w.home && Linked(w, w.home[a]) && a in w.bus.ends && a in w.sent
    && a in w.peer && w.peer[a] in w.peer && w.peer[w.peer[a]] == a && w.peer[a] != a
    && var b := w.peer[a];
      && b in w.home && Linked(w, w.home[b]) && b in w.bus.ends
      && NS.DataOf(Heard(w, b), w.home[b].key) == w.sent[a]
      && TimesClosed(Heard(w, b), w.home[b].key) == (if a in w.shut then 1 else 0)
      && Final(Heard(w, b), w.home[b].key)
      && (if w.bus.ends[a].other.Some?
          then w.bus.ends[a] == B.EndState(Some(w.home[b]), Some(w.home[a]), Some(b), None)
               && a !in w.shut && b !in w.shut && w.bus.ends[b].other == Some(a)
          else w.bus.ends[a] == B.EndState(None, None, None, None) && (a in w.shut <==> b !in w.shut)
               && w.bus.ends[b].other == None)
  }

  ghost predicate NetsKept(w: World) {
    && (forall n :: n in w.nets ==> NS.Inv(w.nets[n]) && Bound(w.nets[n], n, w.home))
    && (forall n, c :: n in w.nets && c in w.nets[n].log.seen ==> c < w.bus.nextEnd)
  }

  ghost predicate EndsKept(w: World) {
    && (forall c :: c in w.bus.ends ==> c < w.bus.nextEnd)
    && (forall c :: c in w.home ==> c < w.bus.nextEnd && Linked(w, w.home[c]))
    && (forall c, d :: c in w.home && d in w.home && w.home[c] == w.home[d] ==> c == d)
    && (forall c :: c in w.bus.ends && c !in w.peer ==> w.bus.ends[c].other.None? && w.bus.ends[c].far.None?)
    && (forall c :: c in w.sent ==> c in w.peer)
    && (forall c :: c in w.shut ==> c in w.peer)
    && (forall name :: name in w.bus.listeners ==> Linked(w, w.bus.listeners[name]))
  }

  ghost predicate PairsKept(w: World) {
    forall a :: a in w.peer ==> PairKept(w, a)
  }

  ghost predicate WorldInv(w: World) {
    NetsKept(w) && EndsKept(w) && PairsKept(w)
  }

  // ----- counting reports -----

  lemma {:induction false} TimesAppend(a: seq<N.Event>, ev: N.Event, key: nat)
    ensures TimesClosed(a + [ev], key) == TimesClosed(a, key) + if ev.Closed? && ev.key == key then 1 else 0
    ensures NS.DataOf(a + [ev], key) == NS.DataOf(a, key) + if ev.Data? && ev.key == key then [ev.data] else []
  {
    assert (a + [ev])[..|a|] == a;
  }

  lemma {:induction false} UnheardKey(evs: seq<N.Event>, key: nat)
    requires forall i :: 0 <= i < |evs| ==> evs[i].key != key
    ensures TimesClosed(evs, key) == 0 && NS.DataOf(evs, key) == [] && Final(evs, key)
  {
    if evs != [] {
      UnheardKey(evs[..|evs| - 1], key);
    }
    UnclosedFinal(evs, key);
  }

  lemma UnclosedFinal(evs: seq<N.Event>, key: nat)
    requires !NS.SaysClosed(evs, key)
    ensures Final(evs, key)
  {
    assert evs[..|evs|] == evs;
    NS.BeforeCloseIs(evs, key, |evs|);
  }

  lemma {:induction false} TimesSays(evs: seq<N.Event>, key: nat)
    ensures TimesClosed(evs, key) > 0 <==> NS.SaysClosed(evs, key)
  {
    if evs != [] {
      var n := |evs| - 1;
      TimesSays(evs[..n], key);
      assert evs[..n] + [evs[n]] == evs;
      NS.SaysClosedAppend(evs[..n], evs[n], key);
    }
  }

  lemma {:induction false} BeforeCloseAppend(a: seq<N.Event>, b: seq<N.Event>, key: nat)
    ensures NS.BeforeClose(a + b, key) == if NS.SaysClosed(a, key) then NS.BeforeClose(a, key) else a + NS.BeforeClose(b, key)
  {
    if a == [] {
      assert a + b == b;
    } else if !(a[0].Closed? && a[0].key == key) {
      assert (a + b)[1..] == a[1..] + b;
      BeforeCloseAppend(a[1..], b, key);
      assert a == [a[0]] + a[1..];
      NT.SaysClosedSplit([a[0]], a[1..], key);
      assert [a[0]] + (a[1..] + NS.BeforeClose(b, key)) == a + NS.BeforeClose(b, key);
    }
  }

  /** One more event keeps the last word, unless it is data after a close. */
  lemma {:induction false} FinalAppend(a: seq<N.Event>, ev: N.Event, key: nat)
    requires Final(a, key) && (ev.Data? && ev.key == key ==> TimesClosed(a, key) == 0)
    ensures Final(a + [ev], key)
  {
    hide NS.DataOf, TimesClosed;
    TimesSays(a, key);
    TimesAppend(a, ev, key);
    BeforeCloseAppend(a, [ev], key);
    if !NS.SaysClosed(a, key) {
      assert [ev][1..] == [] && a + [] == a;
      assert NS.BeforeClose([ev], key) == if ev.Closed? && ev.key == key then [] else [ev];
      assert NS.DataOf(a, key) + [] == NS.DataOf(a, key);
    } else {
      assert NS.DataOf(a, key) + [] == NS.DataOf(a, key);
    }
  }

  lemma {:induction false} NewKeyUnheard(s: N.Net)
    requires NS.Inv(s)
    ensures TimesClosed(NS.Reports(s), s.nextKey) == 0 && NS.DataOf(NS.Reports(s), s.nextKey) == []
    ensures Final(NS.Reports(s), s.nextKey)
  {
    UnheardKey(NS.Reports(s), s.nextKey);
  }

  // ----- local steps leave the reports and the Conns as they are -----

  /** What a connector's own step may not change. */
  ghost predicate SameNews(s: N.Net, t: N.Net) {
    && NS.Reports(t) == NS.Reports(s) && s.nextKey <= t.nextKey && t.log.seen == s.log.seen
    && s.log.closes <= t.log.closes
  }

  /** A routed event places at most the Conn it brought. */
  lemma {:induction false} RoutePlaces(s: N.Net)
    requires s.events != []
    ensures var t := N.RouteHead(s);
      var ev := s.events[0];
      && ((t.log.holder == s.log.holder && t.log.keyOf == s.log.keyOf)
          || (ev.Accepted? && t.log.holder == s.log.holder[ev.conn := s.nextHandle]
              && t.log.keyOf == s.log.keyOf[s.nextHandle := ev.key]))
      && t.nextKey == s.nextKey && t.log.seen == s.log.seen && s.log.closes <= t.log.closes
  {
    var u := s.(events := s.events[1..]);
    var k := N.SlotOf(s.entries, if s.events[0].Accepted? then s.events[0].listener else s.events[0].key);
    if k.Some? {
      RouteOnePlaces(u, k.value, s.events[0]);
    }
  }

  lemma {:induction false} RouteOnePlaces(s: N.Net, k: N.Slot, ev: N.Event)
    requires k in s.entries
    ensures ev.Data? ==> LookSame(s, N.RouteData(s, k, ev.data))
    ensures ev.Closed? ==> LookSame(s, N.RouteClosed(s, k, ev.reason))
    ensures ev.Accepted? ==>
      var t := N.RouteAccepted(s, k, ev);
      LookSame(s, t) || LookSame(s.(log := s.log.(holder := s.log.holder[ev.conn := s.nextHandle],
                                                 keyOf := s.log.keyOf[s.nextHandle := ev.key])), t)
  {
  }

  lemma HoldersKeyed(s: N.Net)
    requires NS.Inv(s)
    ensures s.nextHandle !in s.log.keyOf && forall c :: c in s.log.holder ==> s.log.holder[c] in s.log.keyOf
  {
  }

  lemma {:induction false} RouteBound(s: N.Net, n: nat, home: map<nat, B.Link>)
    requires NS.Inv(s) && s.events != [] && Bound(s, n, home)
    ensures Bound(N.RouteHead(s), n, home) && SameNews(s, N.RouteHead(s))
  {
    HoldersKeyed(s);
    hide NS.Inv, N.RouteHead, NS.Reports;
    NS.HeadReports(s);
    RoutePlaces(s);
    var t := N.RouteHead(s);
    forall i | 0 <= i < |t.events| && t.events[i].Accepted?
      ensures t.events[i].conn in home && home[t.events[i].conn] == B.Link(n, t.events[i].key)
    {
      assert s.events[i + 1] == t.events[i];
    }
  }

  lemma {:induction false} SweepBound(s: N.Net, n: nat, home: map<nat, B.Link>)
    requires NS.Inv(s) && Bound(s, n, home)
    ensures Bound(N.Sweep(s), n, home) && SameNews(s, N.Sweep(s))
    decreases |s.events|
  {
    if s.events != [] {
      RouteBound(s, n, home);
      NS.RouteInv(s);
      NS.HeadReports(s);
      SweepBound(N.RouteHead(s), n, home);
    }
  }

  ghost predicate LookSame(s: N.Net, t: N.Net) {
    && t.events == s.events && t.log.processed == s.log.processed && t.log.holder == s.log.holder && t.log.keyOf == s.log.keyOf
    && t.nextKey == s.nextKey && t.log.seen == s.log.seen && s.log.closes <= t.log.closes
  }

  lemma {:induction false} LookBound(s: N.Net, t: N.Net, n: nat, home: map<nat, B.Link>)
    requires Bound(s, n, home) && LookSame(s, t)
    ensures Bound(t, n, home) && SameNews(s, t)
  {
  }

  lemma {:induction false} AcceptIsSame(s: N.Net, caller: N.Caller, handle: nat, queue: Option<string>, vital: bool)
    ensures LookSame(s, N.AcceptLook(s, caller, handle, queue, vital).0)
  {
  }

  lemma {:induction false} RecvIsSame(s: N.Net, caller: N.Caller, handle: nat)
    ensures LookSame(s, N.RecvLook(s, caller, handle).0)
  {
  }

  lemma {:induction false} ClaimIsSame(s: N.Net, caller: N.Caller, named: Option<nat>, queue: Option<string>, vital: bool)
    ensures LookSame(s, N.Claim(s, caller, named, queue, vital).0)
  {
  }

  lemma {:induction false} RemovalsAreSame(s: N.Net, caller: N.Caller, handle: nat, to: N.Caller)
    ensures LookSame(s, N.Close(s, caller, handle).0)
    ensures LookSame(s, N.Release(s, caller).0)
    ensures LookSame(s, N.Transfer(s, caller, handle, to).0)
  {
  }

  lemma DroppedIsSame(s: N.Net)
    ensures LookSame(s, N.Dropped(s))
  {
  }

  lemma {:induction false} SweepThenLook(s: N.Net, t: N.Net, n: nat, home: map<nat, B.Link>)
    requires NS.Inv(s) && Bound(s, n, home) && LookSame(N.Sweep(s), t)
    ensures Bound(t, n, home) && SameNews(s, t)
  {
    hide NS.Inv, Bound, NS.Reports;
    SweepBound(s, n, home);
    LookBound(N.Sweep(s), t, n, home);
  }

  lemma {:induction false} LocalBound(s: N.Net, step: NS.Step, n: nat, home: map<nat, B.Link>)
    requires NS.Inv(s) && Bound(s, n, home) && IsLocal(step)
    ensures Bound(NS.Next(s, step), n, home) && SameNews(s, NS.Next(s, step))
  {
    hide NS.Inv, Bound, N.AcceptLook, N.RecvLook, N.Claim, N.Close, N.Release, N.Dropped, N.Transfer, N.Sweep, SameNews;
    var u, t := N.Sweep(s), NS.Next(s, step);
    match step
    case SweepStep =>
      SweepThenLook(s, t, n, home);
    case AcceptStep(caller, handle, queue, vital) =>
      AcceptIsSame(u, caller, handle, queue, vital);
      SweepThenLook(s, t, n, home);
    case RecvStep(caller, handle) =>
      RecvIsSame(u, caller, handle);
      SweepThenLook(s, t, n, home);
    case CloseStep(caller, handle) =>
      RemovalsAreSame(s, caller, handle, caller);
      LookBound(s, t, n, home);
    case TransferStep(caller, handle, to) =>
      RemovalsAreSame(s, caller, handle, to);
      LookBound(s, t, n, home);
    case ClaimStep(caller, named, queue, vital) =>
      ClaimIsSame(s, caller, named, queue, vital);
      LookBound(s, t, n, home);
    case ReleaseStep(caller) =>
      RemovalsAreSame(s, caller, 0, caller);
      LookBound(s, t, n, home);
    case DropStep =>
      DroppedIsSame(s);
      LookBound(s, t, n, home);
    case EndedStep => SweepThenLook(s, t, n, home);
    case NoticesStep => SweepThenLook(s, t, n, home);
  }

  // ----- one connector moves on its own -----

  lemma {:induction false} QuietNet(w: World, n: nat, t: N.Net)
    requires WorldInv(w) && n in w.nets && NS.Inv(t) && Bound(t, n, w.home)
    requires NS.Reports(t) == NS.Reports(w.nets[n]) && w.nets[n].nextKey <= t.nextKey
    requires forall c :: c in t.log.seen ==> c in w.nets[n].log.seen || c < w.bus.nextEnd
    ensures WorldInv(w.(nets := w.nets[n := t]))
  {
    hide NS.Inv, Bound, PairKept, EndsKept, NS.Reports;
    var v := w.(nets := w.nets[n := t]);
    SameEnds(w, v);
    forall a | a in v.peer
      ensures PairKept(v, a)
    {
      SamePair(w, v, a);
    }
  }

  lemma {:induction false} SameEnds(w: World, v: World)
    requires EndsKept(w) && v == w.(nets := v.nets)
    requires forall n :: n in w.nets ==> n in v.nets && w.nets[n].nextKey <= v.nets[n].nextKey
    ensures EndsKept(v)
  {
  }

  /** A pair is kept while its ends and what both were told stay the same. */
  lemma {:induction false} SamePair(w: World, v: World, a: nat)
    requires PairsKept(w) && a in w.peer
    requires v.bus.ends == w.bus.ends && v.home == w.home && v.peer == w.peer && v.sent == w.sent && v.shut == w.shut
    requires forall n :: n in w.nets ==> n in v.nets && NS.Reports(v.nets[n]) == NS.Reports(w.nets[n]) && w.nets[n].nextKey <= v.nets[n].nextKey
    ensures PairKept(v, a)
  {
    hide NS.Reports;
    assert PairKept(w, a);
  }

  // ----- telling a link -----

  /** `v` is `w` with one more report on link `l`; the bus may differ. */
  ghost predicate Told(w: World, v: World, l: B.Link, ev: N.Event) {
    && Linked(w, l) && !ev.Accepted? && ev.key == l.key
    && v.nets == w.nets[l.net := N.Report(w.nets[l.net], ev)] && v.home == w.home && v.peer == w.peer
    && v.bus.nextEnd == w.bus.nextEnd
  }

  lemma {:induction false} ReportBound(s: N.Net, ev: N.Event, n: nat, home: map<nat, B.Link>)
    requires NS.Inv(s) && Bound(s, n, home) && !ev.Accepted? && ev.key < s.nextKey
    ensures NS.Inv(N.Report(s, ev)) && Bound(N.Report(s, ev), n, home)
  {
    hide NS.Inv;
    NS.ReportInv(s, ev);
  }

  lemma {:induction false} ToldNets(w: World, v: World, l: B.Link, ev: N.Event)
    requires NetsKept(w) && Told(w, v, l, ev)
    ensures NetsKept(v)
  {
    hide NS.Inv, Bound;
    ReportBound(w.nets[l.net], ev, l.net, w.home);
  }

  lemma {:induction false} ToldHeard(w: World, v: World, l: B.Link, ev: N.Event, c: nat)
    requires Told(w, v, l, ev) && c in w.home && w.home[c].net in w.nets
    ensures var key := w.home[c].key;
      && NS.DataOf(Heard(v, c), key) == NS.DataOf(Heard(w, c), key) + (if ev.Data? && w.home[c] == l then [ev.data] else [])
      && TimesClosed(Heard(v, c), key) == TimesClosed(Heard(w, c), key) + (if ev.Closed? && w.home[c] == l then 1 else 0)
      && (Final(Heard(w, c), key) && (ev.Data? && w.home[c] == l ==> TimesClosed(Heard(w, c), key) == 0) ==> Final(Heard(v, c), key))
  {
    if w.home[c].net == l.net {
      var s := w.nets[l.net];
      assert NS.Reports(N.Report(s, ev)) == NS.Reports(s) + [ev];
      TimesAppend(NS.Reports(s), ev, w.home[c].key);
      if Final(NS.Reports(s), w.home[c].key) && (ev.Data? && w.home[c] == l ==> TimesClosed(NS.Reports(s), w.home[c].key) == 0) {
        FinalAppend(NS.Reports(s), ev, w.home[c].key);
      }
    }
  }

  lemma {:induction false} ToldLinks(w: World, v: World, l: B.Link, ev: N.Event)
    requires Told(w, v, l, ev)
    ensures forall m :: Linked(w, m) ==> Linked(v, m)
  {
  }

  // ----- closing an end -----

  lemma {:induction false} CloseLoneEnd(w: World, c: nat)
    requires WorldInv(w) && c in w.bus.ends && w.bus.ends[c].other.None?
    ensures WorldInv(CloseEnd(w, c))
  {
    hide NS.Inv, Bound, PairKept;
    var v := CloseEnd(w, c);
    assert v.nets == w.nets && v.home == w.home && v.peer == w.peer && v.sent == w.sent && v.shut == w.shut;
    forall a | a in v.peer
      ensures PairKept(v, a)
    {
      LonePair(w, v, c, a);
    }
  }

  lemma {:induction false} LonePair(w: World, v: World, c: nat, a: nat)
    requires PairsKept(w) && a in w.peer && c in w.bus.ends && w.bus.ends[c].other.None?
    requires v.nets == w.nets && v.home == w.home && v.peer == w.peer && v.sent == w.sent && v.shut == w.shut
    requires v.bus.ends == w.bus.ends[c := B.EndState(None, None, None, None)]
    ensures PairKept(v, a)
  {
    hide NS.Reports, NS.DataOf, TimesClosed, Final;
    assert PairKept(w, a) && PairKept(w, w.peer[a]);
    assert Heard(v, w.peer[a]) == Heard(w, w.peer[a]);
  }

  /** What closing a joined end does to the bus and to the other side's inbox. */
  lemma {:induction false} CloseJoinedIs(w: World, c: nat)
    requires c in w.bus.ends && w.bus.ends[c].other.Some? && c in w.peer && PairKept(w, c) && PairKept(w, w.peer[c])
    ensures var v := CloseEnd(w, c);
      var b := w.peer[c];
      var dead := B.EndState(None, None, None, None);
      && v.bus == w.bus.(ends := w.bus.ends[c := dead][b := dead])
      && v.shut == w.shut + {c} && v.sent == w.sent
      && Told(w, v, w.home[b], N.Closed(w.home[b].key, Some(B.FAR_CLOSED)))
  {
  }

  /** `v` is `w` with `c` and its other end dead and the other side told. */
  ghost predicate Parted(w: World, v: World, c: nat) {
    && c in w.peer && c in w.bus.ends && w.bus.ends[c].other.Some? && w.peer[c] in w.home && w.peer[c] in w.bus.ends
    && var b := w.peer[c];
      var dead := B.EndState(None, None, None, None);
      && v.bus == w.bus.(ends := w.bus.ends[c := dead][b := dead])
      && v.shut == w.shut + {c} && v.sent == w.sent
      && Told(w, v, w.home[b], N.Closed(w.home[b].key, Some(B.FAR_CLOSED)))
  }

  lemma {:induction false} CloseJoinedParts(w: World, c: nat)
    requires EndsKept(w) && PairsKept(w) && c in w.bus.ends && w.bus.ends[c].other.Some?
    ensures Parted(w, CloseEnd(w, c), c)
  {
    hide NS.Reports, NS.DataOf, TimesClosed, Final, CloseEnd, N.Report, Told;
    assert c in w.peer && PairKept(w, c);
    assert PairKept(w, w.peer[c]);
    CloseJoinedIs(w, c);
  }

  lemma {:induction false} PartedEnds(w: World, v: World, c: nat)
    requires EndsKept(w) && PairsKept(w) && Parted(w, v, c)
    ensures EndsKept(v)
  {
    hide NS.Reports, NS.DataOf, TimesClosed, Final, N.Report, Told, EndsKept;
    assert PairKept(w, c);
    var b := w.peer[c];
    SentKnown(w);
    hide PairKept;
    ToldEnds(w, v, w.home[b], N.Closed(w.home[b].key, Some(B.FAR_CLOSED)));
  }

  lemma SentKnown(w: World)
    requires EndsKept(w)
    ensures w.sent.Keys <= w.peer.Keys && w.shut <= w.peer.Keys
  {
  }

  lemma {:induction false} CloseJoinedEnd(w: World, c: nat)
    requires WorldInv(w) && c in w.bus.ends && w.bus.ends[c].other.Some?
    ensures WorldInv(CloseEnd(w, c))
  {
    hide NetsKept, EndsKept, CloseEnd, Told, PairKept;
    var v := CloseEnd(w, c);
    CloseJoinedParts(w, c);
    PartedEnds(w, v, c);
    var b := w.peer[c];
    ToldNets(w, v, w.home[b], N.Closed(w.home[b].key, Some(B.FAR_CLOSED)));
    assert v.peer == w.peer by { ToldPeers(w, v, w.home[b], N.Closed(w.home[b].key, Some(B.FAR_CLOSED))); }
    forall a | a in v.peer
      ensures PairKept(v, a)
    {
      ClosedPair(w, v, c, a);
    }
  }

  lemma ToldPeers(w: World, v: World, l: B.Link, ev: N.Event)
    requires Told(w, v, l, ev)
    ensures v.peer == w.peer
  {
  }

  lemma {:induction false} ToldEnds(w: World, v: World, l: B.Link, ev: N.Event)
    requires EndsKept(w) && Told(w, v, l, ev)
    requires v.bus.ends.Keys == w.bus.ends.Keys && v.bus.listeners == w.bus.listeners && v.sent.Keys <= w.peer.Keys
    requires v.shut <= w.peer.Keys
    requires forall c :: c in w.bus.ends && c !in w.peer ==> v.bus.ends[c] == w.bus.ends[c]
    ensures EndsKept(v)
  {
    ToldLinks(w, v, l, ev);
  }

  lemma HomesDiffer(w: World, x: nat, y: nat)
    requires EndsKept(w) && x in w.home && y in w.home
    ensures w.home[x] == w.home[y] ==> x == y
  {
  }

  lemma PairOf(w: World, a: nat)
    requires PairsKept(w) && a in w.peer
    ensures PairKept(w, a)
  {
    hide PairKept;
  }

  lemma {:induction false} ClosedPair(w: World, v: World, c: nat, a: nat)
    requires EndsKept(w) && PairsKept(w) && Parted(w, v, c) && a in w.peer
    ensures PairKept(v, a)
  {
    hide NS.Reports, NS.DataOf, TimesClosed, Final, N.Report, PairsKept, EndsKept;
    var b := w.peer[c];
    var l := w.home[b];
    var ev := N.Closed(l.key, Some(B.FAR_CLOSED));
    PairOf(w, c);
    PairOf(w, a);
    var d := w.peer[a];
    PairOf(w, b);
    PairOf(w, d);
    ToldLinks(w, v, l, ev);
    ToldHeard(w, v, l, ev, d);
    HomesDiffer(w, b, d);
    hide Told, Heard, Linked;
    assert w.home[d] == l <==> d == b;
    assert d == b <==> a == c;
    assert a in {b, c} <==> d in {b, c};
    if a !in {b, c} {
      assert v.bus.ends[a] == w.bus.ends[a] && v.bus.ends[d] == w.bus.ends[d];
    }
  }

  lemma {:induction false} CloseEndsInv(w: World, cs: seq<nat>)
    requires WorldInv(w)
    ensures WorldInv(CloseEnds(w, cs))
    decreases |cs|
  {
    hide WorldInv;
    if cs != [] {
      var c := cs[0];
      if c in w.bus.ends {
        if w.bus.ends[c].other.None? { CloseLoneEnd(w, c); } else { CloseJoinedEnd(w, c); }
      }
      CloseEndsInv(CloseEnd(w, c), cs[1..]);
    }
  }

  lemma NetIn(w: World, n: nat)
    requires NetsKept(w) && n in w.nets
    ensures NS.Inv(w.nets[n]) && Bound(w.nets[n], n, w.home)
  {
    hide NS.Inv, Bound;
  }

  lemma {:induction false} LocalInv(w: World, n: nat, step: NS.Step)
    requires WorldInv(w) && n in w.nets && IsLocal(step)
    ensures WorldInv(LocalStep(w, n, step))
  {
    hide NS.Inv, Bound, NetsKept, EndsKept, PairsKept, NS.Next;
    NetIn(w, n);
    var s := w.nets[n];
    NS.NextInv(s, step);
    LocalBound(s, step, n, w.home);
    QuietNet(w, n, NS.Next(s, step));
    var t := NS.Next(s, step);
    CloseEndsInv(w.(nets := w.nets[n := t]), if |s.log.closes| <= |t.log.closes| then t.log.closes[|s.log.closes|..] else []);
  }

  // ----- sending -----

  lemma {:induction false} SentPair(w: World, v: World, a: nat, data: Bytes, x: nat)
    requires EndsKept(w) && PairsKept(w) && a in w.peer && x in w.peer
    requires PairKept(w, a) && w.bus.ends[a].other.Some?
    requires v.bus == w.bus && v.shut == w.shut && v.sent == w.sent[a := w.sent[a] + [data]]
    requires Told(w, v, w.home[w.peer[a]], N.Data(w.home[w.peer[a]].key, data))
    ensures PairKept(v, x)
  {
    hide NS.Reports, NS.DataOf, TimesClosed, Final, N.Report;
    var l := w.home[w.peer[a]];
    var ev := N.Data(l.key, data);
    assert PairKept(w, x) && PairKept(w, w.peer[x]);
    ToldLinks(w, v, l, ev);
    ToldHeard(w, v, l, ev, w.peer[x]);
  }

  lemma {:induction false} SendInv(w: World, n: nat, caller: N.Caller, handle: nat, data: Bytes)
    requires WorldInv(w) && n in w.nets
    ensures WorldInv(SendStep(w, n, caller, handle, data).0)
  {
    hide NetsKept, PairsKept, PairKept, N.Report, N.SendOn;
    var v := SendStep(w, n, caller, handle, data).0;
    if v != w {
      var a := SentOn(w, n, caller, handle, data);
      var l := w.home[w.peer[a]];
      var ev := N.Data(l.key, data);
      hide SendStep;
      ToldNets(w, v, l, ev);
      SentEnds(w, v, a, data);
      SentPairs(w, v, a, data);
    }
  }

  /** What a send that got through did. */
  ghost predicate Sent(w: World, v: World, a: nat, data: Bytes) {
    && a in w.peer && a in w.sent && w.peer[a] in w.home && PairKept(w, a) && w.bus.ends[a].other.Some?
    && v.bus == w.bus && v.shut == w.shut && v.sent == w.sent[a := w.sent[a] + [data]]
    && Told(w, v, w.home[w.peer[a]], N.Data(w.home[w.peer[a]].key, data))
  }

  lemma {:induction false} SentOn(w: World, n: nat, caller: N.Caller, handle: nat, data: Bytes) returns (a: nat)
    requires EndsKept(w) && PairsKept(w) && n in w.nets && SendStep(w, n, caller, handle, data).0 != w
    ensures Sent(w, SendStep(w, n, caller, handle, data).0, a, data)
  {
    hide NS.Reports, NS.DataOf, TimesClosed, Final, N.Report, N.SendOn;
    a := N.SendOn(w.nets[n], caller, handle, data).value;
    assert a in w.peer && PairKept(w, a);
  }

  lemma {:induction false} SentEnds(w: World, v: World, a: nat, data: Bytes)
    requires EndsKept(w) && Sent(w, v, a, data)
    ensures EndsKept(v)
  {
    hide PairKept, N.Report;
    ToldLinks(w, v, w.home[w.peer[a]], N.Data(w.home[w.peer[a]].key, data));
  }

  lemma {:induction false} SentPairs(w: World, v: World, a: nat, data: Bytes)
    requires EndsKept(w) && PairsKept(w) && Sent(w, v, a, data)
    ensures PairsKept(v)
  {
    hide EndsKept, PairKept, N.Report;
    forall x | x in v.peer
      ensures PairKept(v, x)
    {
      SentPair(w, v, a, data, x);
    }
  }

  // ----- opening -----

  lemma {:induction false} BegunBound(s: N.Net, caller: N.Caller, e: N.Entry, n: nat, home: map<nat, B.Link>)
    requires NS.Inv(s) && Bound(s, n, home) && e.conn.None?
    ensures Bound(N.Begin(s, caller, e), n, home) && SameNews(s, N.Begin(s, caller, e))
  {
    assert s.nextHandle !in s.log.keyOf;
    assert forall c :: c in s.log.holder ==> s.log.holder[c] in s.log.keyOf;
  }

  lemma {:induction false} RefusedBound(s: N.Net, k: N.Slot, why: string, n: nat, home: map<nat, B.Link>)
    requires Bound(s, n, home)
    ensures Bound(N.Settle(s, k.owner, k.handle, Err(why)), n, home) && SameNews(s, N.Settle(s, k.owner, k.handle, Err(why)))
  {
  }

  lemma {:induction false} AnsweredBound(s: N.Net, k: N.Slot, c: nat, n: nat, home: map<nat, B.Link>)
    requires NS.Inv(s) && Bound(s, n, home) && k in s.entries && c in home && home[c] == B.Link(n, s.entries[k].key)
    ensures Bound(N.Settle(s, k.owner, k.handle, Ok(c)), n, home)
  {
    assert s.log.keyOf[k.handle] == s.entries[k].key;
  }

  lemma {:induction false} ArriveBound(s: N.Net, listener: nat, c: nat, peer: string, n: nat, home: map<nat, B.Link>)
    requires Bound(s, n, home) && c in home && home[c] == B.Link(n, s.nextKey)
    ensures Bound(N.Arrive(s, listener, c, peer), n, home)
  {
  }

  lemma {:induction false} MoreHomes(s: N.Net, n: nat, home: map<nat, B.Link>, more: map<nat, B.Link>)
    requires Bound(s, n, home) && forall c :: c in home ==> c in more && more[c] == home[c]
    ensures Bound(s, n, more)
  {
  }

  /** A link that carries nothing yet and is nobody's home. */
  ghost predicate Unused(w: World, l: B.Link) {
    && Linked(w, l) && (forall c :: c in w.home ==> w.home[c] != l)
    && NS.DataOf(NS.Reports(w.nets[l.net]), l.key) == [] && TimesClosed(NS.Reports(w.nets[l.net]), l.key) == 0
    && Final(NS.Reports(w.nets[l.net]), l.key)
  }

  /** An arrival is news of no data and no close. */
  lemma {:induction false} ArriveSilent(s: N.Net, listener: nat, c: nat, peer: string, key: nat)
    ensures var t := N.Arrive(s, listener, c, peer);
      NS.DataOf(NS.Reports(t), key) == NS.DataOf(NS.Reports(s), key) && TimesClosed(NS.Reports(t), key) == TimesClosed(NS.Reports(s), key)
    ensures Final(NS.Reports(s), key) ==> Final(NS.Reports(N.Arrive(s, listener, c, peer)), key)
  {
    var ev := N.Accepted(s.nextKey, listener, c, peer);
    assert NS.Reports(N.Arrive(s, listener, c, peer)) == NS.Reports(s) + [ev];
    TimesAppend(NS.Reports(s), ev, key);
    if Final(NS.Reports(s), key) {
      FinalAppend(NS.Reports(s), ev, key);
    }
  }

  lemma {:induction false} ConnectNets(w: World, home: B.Link, acceptor: B.Link, peer: string)
    requires NetsKept(w) && EndsKept(w) && acceptor.net in w.nets
    ensures NetsKept(ConnectEnds(w, home, acceptor, peer))
  {
    hide NS.Inv, Bound;
    var v := ConnectEnds(w, home, acceptor, peer);
    var far, theirs := w.nets[acceptor.net], w.bus.nextEnd + 1;
    forall n | n in v.nets
      ensures NS.Inv(v.nets[n]) && Bound(v.nets[n], n, v.home)
    {
      MoreHomes(w.nets[n], n, w.home, v.home);
      if n == acceptor.net {
        NS.ArriveInv(far, acceptor.key, theirs, peer);
        ArriveBound(far, acceptor.key, theirs, peer, n, v.home);
      }
    }
  }

  lemma {:induction false} ConnectLinks(w: World, home: B.Link, acceptor: B.Link, peer: string)
    requires acceptor.net in w.nets
    ensures forall m :: Linked(w, m) ==> Linked(ConnectEnds(w, home, acceptor, peer), m)
    ensures Linked(ConnectEnds(w, home, acceptor, peer), B.Link(acceptor.net, w.nets[acceptor.net].nextKey))
  {
  }

  lemma {:induction false} ConnectHomes(w: World, home: B.Link, acceptor: B.Link, peer: string)
    requires EndsKept(w) && acceptor.net in w.nets && Unused(w, home)
    ensures var v := ConnectEnds(w, home, acceptor, peer);
      && (forall c :: c in v.home ==> c < v.bus.nextEnd && Linked(v, v.home[c]))
      && (forall c, d :: c in v.home && d in v.home && v.home[c] == v.home[d] ==> c == d)
  {
    hide NS.DataOf, TimesClosed, Final, NS.Reports, N.Arrive, B.Connect;
    ConnectLinks(w, home, acceptor, peer);
    var v := ConnectEnds(w, home, acceptor, peer);
    var farHome := B.Link(acceptor.net, w.nets[acceptor.net].nextKey);
    assert forall c :: c in w.home ==> w.home[c] != farHome && w.home[c] != home;
    assert home != farHome;
    assert v.bus.nextEnd == w.bus.nextEnd + 2 by { ConnectNumbers(w.bus, home, farHome); }
  }

  lemma ConnectNumbers(b: B.BusState, mine: B.Link, theirs: B.Link)
    ensures B.Connect(b, mine, theirs).nextEnd == b.nextEnd + 2
    ensures B.Connect(b, mine, theirs).listeners == b.listeners
    ensures B.Connect(b, mine, theirs).ends.Keys == b.ends.Keys + {b.nextEnd, b.nextEnd + 1}
    ensures forall c :: c in b.ends && c < b.nextEnd ==> B.Connect(b, mine, theirs).ends[c] == b.ends[c]
  {
  }

  lemma {:induction false} ConnectEndsKept(w: World, home: B.Link, acceptor: B.Link, peer: string)
    requires EndsKept(w) && acceptor.net in w.nets && Unused(w, home)
    ensures EndsKept(ConnectEnds(w, home, acceptor, peer))
  {
    hide NS.DataOf, TimesClosed, Final, NS.Reports, N.Arrive, B.Connect, Linked;
    ConnectHomes(w, home, acceptor, peer);
    ConnectLinks(w, home, acceptor, peer);
    ConnectNumbers(w.bus, home, B.Link(acceptor.net, w.nets[acceptor.net].nextKey));
  }

  /** What connecting leaves as it was for an end that existed before. */
  lemma {:induction false} ConnectOldHeard(w: World, home: B.Link, acceptor: B.Link, peer: string, c: nat)
    requires acceptor.net in w.nets && c in w.home && w.home[c].net in w.nets && c < w.bus.nextEnd
    ensures var v := ConnectEnds(w, home, acceptor, peer);
      && c in v.home && v.home[c] == w.home[c]
      && NS.DataOf(Heard(v, c), w.home[c].key) == NS.DataOf(Heard(w, c), w.home[c].key)
      && TimesClosed(Heard(v, c), w.home[c].key) == TimesClosed(Heard(w, c), w.home[c].key)
      && (Final(Heard(w, c), w.home[c].key) ==> Final(Heard(v, c), w.home[c].key))
  {
    hide NS.Reports, NS.DataOf, TimesClosed, Final, B.Connect, N.Arrive;
    ArriveSilent(w.nets[acceptor.net], acceptor.key, w.bus.nextEnd + 1, peer, w.home[c].key);
  }

  lemma {:induction false} ConnectOldPair(w: World, home: B.Link, acceptor: B.Link, peer: string, a: nat)
    requires EndsKept(w) && PairsKept(w) && acceptor.net in w.nets && a in w.peer
    ensures PairKept(ConnectEnds(w, home, acceptor, peer), a)
  {
    PeersNumbered(w);
    PairOf(w, a);
    PairOf(w, w.peer[a]);
    hide EndsKept, PairsKept;
    ConnectPairStays(w, home, acceptor, peer, a);
  }

  lemma {:induction false} ConnectPairStays(w: World, home: B.Link, acceptor: B.Link, peer: string, a: nat)
    requires acceptor.net in w.nets && a in w.peer && PairKept(w, a) && w.peer[a] in w.peer && PairKept(w, w.peer[a])
    requires a < w.bus.nextEnd && w.peer[a] < w.bus.nextEnd
    ensures PairKept(ConnectEnds(w, home, acceptor, peer), a)
  {
    hide NS.Reports, NS.DataOf, TimesClosed, Final, B.Connect, N.Arrive;
    ConnectOldHeard(w, home, acceptor, peer, w.peer[a]);
    ConnectLinks(w, home, acceptor, peer);
    ConnectNumbers(w.bus, home, B.Link(acceptor.net, w.nets[acceptor.net].nextKey));
    assert Linked(w, w.home[a]) && Linked(w, w.home[w.peer[a]]);
    hide Heard, Linked;
  }

  lemma {:induction false} ConnectNewPair(w: World, home: B.Link, acceptor: B.Link, peer: string)
    requires NetsKept(w) && EndsKept(w) && PairsKept(w) && acceptor.net in w.nets && Unused(w, home)
    ensures PairKept(ConnectEnds(w, home, acceptor, peer), w.bus.nextEnd)
    ensures PairKept(ConnectEnds(w, home, acceptor, peer), w.bus.nextEnd + 1)
  {
    hide NS.Inv, Bound, NS.Reports, NS.DataOf, TimesClosed, Final;
    var far := w.nets[acceptor.net];
    NetIn(w, acceptor.net);
    NewKeyUnheard(far);
    ArriveSilent(far, acceptor.key, w.bus.nextEnd + 1, peer, far.nextKey);
    ArriveSilent(far, acceptor.key, w.bus.nextEnd + 1, peer, home.key);
    PeersNumbered(w);
    hide PairKept, NetsKept, PairsKept;
    assert w.bus.nextEnd !in w.shut && w.bus.nextEnd + 1 !in w.shut;
    NewPairParts(w, home, acceptor, peer);
  }

  lemma {:induction false} PeersNumbered(w: World)
    requires EndsKept(w) && PairsKept(w)
    ensures forall a :: a in w.peer ==> a < w.bus.nextEnd
  {
    forall a | a in w.peer
      ensures a < w.bus.nextEnd
    {
      assert PairKept(w, a);
    }
  }

  lemma {:induction false} NewPairParts(w: World, home: B.Link, acceptor: B.Link, peer: string)
    requires acceptor.net in w.nets && Linked(w, home)
    requires w.bus.nextEnd !in w.shut && w.bus.nextEnd + 1 !in w.shut
    requires var v := ConnectEnds(w, home, acceptor, peer);
      && NS.DataOf(NS.Reports(v.nets[home.net]), home.key) == [] && TimesClosed(NS.Reports(v.nets[home.net]), home.key) == 0
      && NS.DataOf(NS.Reports(v.nets[acceptor.net]), w.nets[acceptor.net].nextKey) == []
      && TimesClosed(NS.Reports(v.nets[acceptor.net]), w.nets[acceptor.net].nextKey) == 0
      && Final(NS.Reports(v.nets[home.net]), home.key) && Final(NS.Reports(v.nets[acceptor.net]), w.nets[acceptor.net].nextKey)
    ensures PairKept(ConnectEnds(w, home, acceptor, peer), w.bus.nextEnd)
    ensures PairKept(ConnectEnds(w, home, acceptor, peer), w.bus.nextEnd + 1)
  {
    hide NS.Reports, NS.DataOf, TimesClosed, Final;
  }

  /** A link just issued by a `begin` is unused. */
  lemma {:induction false} BegunUnused(w: World, n: nat, caller: N.Caller, e: N.Entry)
    requires NetsKept(w) && EndsKept(w) && n in w.nets
    ensures Unused(w.(nets := w.nets[n := N.Begin(w.nets[n], caller, e)]), B.Link(n, w.nets[n].nextKey))
  {
    hide NS.Inv, Bound, NetsKept, TimesClosed, Final, NS.DataOf;
    NetIn(w, n);
    NewKeyUnheard(w.nets[n]);
    assert NS.Reports(N.Begin(w.nets[n], caller, e)) == NS.Reports(w.nets[n]);
  }

  lemma {:induction false} BeginWorld(w: World, n: nat, caller: N.Caller, e: N.Entry)
    requires WorldInv(w) && n in w.nets
    requires e.key == w.nets[n].nextKey && e.conn.None? && e.inbound == [] && e.waiting.None? && e.gone.None?
    ensures WorldInv(w.(nets := w.nets[n := N.Begin(w.nets[n], caller, e)]))
  {
    hide NetsKept, EndsKept, PairsKept, NS.Inv, Bound;
    NetIn(w, n);
    NS.BeginInv(w.nets[n], caller, e);
    BegunBound(w.nets[n], caller, e, n, w.home);
    QuietNet(w, n, N.Begin(w.nets[n], caller, e));
  }

  lemma {:induction false} RefuseWorld(w: World, n: nat, k: N.Slot, why: string)
    requires WorldInv(w) && n in w.nets && k in w.nets[n].log.opening
    ensures WorldInv(w.(nets := w.nets[n := N.Settle(w.nets[n], k.owner, k.handle, Err(why))]))
  {
    hide NetsKept, EndsKept, PairsKept, NS.Inv, Bound;
    NetIn(w, n);
    NS.SettleInv(w.nets[n], k, Err(why));
    RefusedBound(w.nets[n], k, why, n, w.home);
    QuietNet(w, n, N.Settle(w.nets[n], k.owner, k.handle, Err(why)));
  }

  lemma {:induction false} AnswerWorld(w: World, n: nat, k: N.Slot, c: nat)
    requires WorldInv(w) && n in w.nets && k in w.nets[n].log.opening && k in w.nets[n].entries
    requires c !in w.nets[n].log.seen && c < w.bus.nextEnd && c in w.home && w.home[c] == B.Link(n, w.nets[n].entries[k].key)
    ensures WorldInv(w.(nets := w.nets[n := N.Settle(w.nets[n], k.owner, k.handle, Ok(c))]))
  {
    hide NetsKept, EndsKept, PairsKept, NS.Inv, Bound;
    NetIn(w, n);
    NS.SettleInv(w.nets[n], k, Ok(c));
    AnsweredBound(w.nets[n], k, c, n, w.home);
    QuietNet(w, n, N.Settle(w.nets[n], k.owner, k.handle, Ok(c)));
  }

  lemma {:induction false} ConnectWorld(w: World, home: B.Link, acceptor: B.Link, peer: string)
    requires WorldInv(w) && acceptor.net in w.nets && Unused(w, home)
    ensures WorldInv(ConnectEnds(w, home, acceptor, peer))
  {
    hide NetsKept, EndsKept, PairKept, Unused;
    var v := ConnectEnds(w, home, acceptor, peer);
    ConnectNets(w, home, acceptor, peer);
    ConnectEndsKept(w, home, acceptor, peer);
    ConnectNewPair(w, home, acceptor, peer);
    forall a | a in v.peer
      ensures PairKept(v, a)
    {
      if a in w.peer {
        ConnectOldPair(w, home, acceptor, peer, a);
      }
    }
  }

  lemma {:induction false} SeenBelow(w: World, n: nat)
    requires NetsKept(w) && n in w.nets
    ensures w.bus.nextEnd !in w.nets[n].log.seen
  {
    hide NS.Inv, Bound;
  }

  lemma {:induction false} OpenInv(w: World, n: nat, caller: N.Caller, address: string, queue: Option<string>, vital: bool)
    requires WorldInv(w) && n in w.nets
    ensures WorldInv(OpenStep(w, n, caller, address, queue, vital))
  {
    hide NetsKept, EndsKept, PairsKept;
    var s := w.nets[n];
    var e := N.Entry(s.nextKey, None, false, address, queue, vital, [], None, None);
    var k := N.Slot(caller, s.nextHandle);
    var w1 := w.(nets := w.nets[n := N.Begin(s, caller, e)]);
    BeginWorld(w, n, caller, e);
    if address !in w.bus.listeners || w.bus.listeners[address].net !in w.nets {
      RefuseWorld(w1, n, k, "nobody listens on '" + address + "'");
    } else {
      BegunUnused(w, n, caller, e);
      ConnectWorld(w1, B.Link(n, s.nextKey), w.bus.listeners[address], address + "-peer");
      SeenBelow(w1, n);
      AnswerWorld(ConnectEnds(w1, B.Link(n, s.nextKey), w.bus.listeners[address], address + "-peer"), n, k, w.bus.nextEnd);
    }
  }

  /** A listener's end joins the bus. */
  function AddListener(w: World, address: string, acceptor: B.Link): World
    requires address !in w.bus.listeners
  {
    w.(bus := B.Listen(w.bus, address, acceptor).value, home := w.home[w.bus.nextEnd := acceptor])
  }

  lemma {:induction false} AddListenerInv(w: World, address: string, acceptor: B.Link)
    requires WorldInv(w) && address !in w.bus.listeners && Unused(w, acceptor)
    ensures WorldInv(AddListener(w, address, acceptor))
  {
    var v := AddListener(w, address, acceptor);
    AddListenerNets(w, address, acceptor);
    hide NetsKept, NS.Reports, NS.DataOf, TimesClosed, Final;
    AddListenerEnds(w, address, acceptor);
    hide EndsKept, Unused;
    forall a | a in v.peer
      ensures PairKept(v, a)
    {
      AddListenerPair(w, address, acceptor, a);
    }
  }

  lemma {:induction false} AddListenerNets(w: World, address: string, acceptor: B.Link)
    requires NetsKept(w) && EndsKept(w) && address !in w.bus.listeners
    ensures NetsKept(AddListener(w, address, acceptor))
  {
    hide NS.Inv, Bound;
    var v := AddListener(w, address, acceptor);
    forall n | n in v.nets
      ensures Bound(v.nets[n], n, v.home)
    {
      MoreHomes(w.nets[n], n, w.home, v.home);
    }
  }

  lemma {:induction false} AddListenerEnds(w: World, address: string, acceptor: B.Link)
    requires EndsKept(w) && PairsKept(w) && address !in w.bus.listeners && Unused(w, acceptor)
    ensures EndsKept(AddListener(w, address, acceptor))
  {
    hide NS.Reports, NS.DataOf, TimesClosed, Final, PairKept;
  }

  lemma {:induction false} AddListenerPair(w: World, address: string, acceptor: B.Link, a: nat)
    requires EndsKept(w) && PairsKept(w) && a in w.peer && address !in w.bus.listeners
    ensures PairKept(AddListener(w, address, acceptor), a)
  {
    PeersNumbered(w);
    PairOf(w, a);
    PairOf(w, w.peer[a]);
    hide EndsKept, PairsKept, NS.Reports, NS.DataOf, TimesClosed, Final;
  }

  lemma {:induction false} ListenInv(w: World, n: nat, caller: N.Caller, address: string, queue: Option<string>)
    requires WorldInv(w) && n in w.nets
    ensures WorldInv(ListenStep(w, n, caller, address, queue))
  {
    hide WorldInv;
    match B.Listen(w.bus, address, B.Link(n, w.nets[n].nextKey))
    case Err(why) => ListenRefused(w, n, caller, address, queue, why);
    case Ok(_) => ListenTaken(w, n, caller, address, queue);
  }

  lemma {:induction false} ListenRefused(w: World, n: nat, caller: N.Caller, address: string, queue: Option<string>, why: string)
    requires WorldInv(w) && n in w.nets && B.Listen(w.bus, address, B.Link(n, w.nets[n].nextKey)) == Err(why)
    ensures WorldInv(ListenStep(w, n, caller, address, queue))
  {
    hide NetsKept, EndsKept, PairsKept;
    var s := w.nets[n];
    var e := N.Entry(s.nextKey, None, true, address, queue, false, [], None, None);
    var w1 := w.(nets := w.nets[n := N.Begin(s, caller, e)]);
    BeginWorld(w, n, caller, e);
    RefuseWorld(w1, n, N.Slot(caller, s.nextHandle), why);
    assert ListenStep(w, n, caller, address, queue)
        == w1.(nets := w1.nets[n := N.Settle(w1.nets[n], caller, s.nextHandle, Err(why))]);
  }

  lemma {:induction false} ListenTaken(w: World, n: nat, caller: N.Caller, address: string, queue: Option<string>)
    requires WorldInv(w) && n in w.nets && B.Listen(w.bus, address, B.Link(n, w.nets[n].nextKey)).Ok?
    ensures WorldInv(ListenStep(w, n, caller, address, queue))
  {
    hide NetsKept, EndsKept, PairsKept;
    var s := w.nets[n];
    var e := N.Entry(s.nextKey, None, true, address, queue, false, [], None, None);
    var w1 := w.(nets := w.nets[n := N.Begin(s, caller, e)]);
    var home := B.Link(n, s.nextKey);
    BeginWorld(w, n, caller, e);
    BegunUnused(w, n, caller, e);
    AddListenerInv(w1, address, home);
    SeenBelow(w1, n);
    var w2 := AddListener(w1, address, home);
    AnswerWorld(w2, n, N.Slot(caller, s.nextHandle), w.bus.nextEnd);
    assert ListenStep(w, n, caller, address, queue)
        == w2.(nets := w2.nets[n := N.Settle(w2.nets[n], caller, s.nextHandle, Ok(w.bus.nextEnd))]);
  }

  // ----- runs -----

  lemma {:induction false} NextInv(w: World, step: Step)
    requires WorldInv(w) && Possible(w, step)
    ensures WorldInv(Next(w, step))
  {
    hide WorldInv;
    match step
    case Open(n, caller, address, queue, vital) => OpenInv(w, n, caller, address, queue, vital);
    case Listen(n, caller, address, queue) => ListenInv(w, n, caller, address, queue);
    case Send(n, caller, handle, data) => SendInv(w, n, caller, handle, data);
    case Local(n, step) => LocalInv(w, n, step);
  }

  /** Any number of connectors on a bus nobody has used. */
  ghost predicate Start(w: World) {
    && w.bus == B.Idle && w.home == map[] && w.peer == map[] && w.sent == map[] && w.shut == {}
    && forall n :: n in w.nets ==> w.nets[n] == N.Fresh
  }

  lemma {:induction false} StartInv(w: World)
    requires Start(w)
    ensures WorldInv(w)
  {
    NS.InvFresh();
    hide NS.Inv;
  }

  ghost predicate Runs(w: World, steps: seq<Step>)
    decreases |steps|
  {
    steps == [] || (Possible(w, steps[0]) && Runs(Next(w, steps[0]), steps[1..]))
  }

  ghost function After(w: World, steps: seq<Step>): World
    requires Runs(w, steps)
    decreases |steps|
  {
    if steps == [] then w else After(Next(w, steps[0]), steps[1..])
  }

  ghost predicate Reachable(w: World) {
    exists start, steps :: Start(start) && Runs(start, steps) && w == After(start, steps)
  }

  lemma {:induction false} RunKeepsInv(w: World, steps: seq<Step>)
    requires WorldInv(w) && Runs(w, steps)
    ensures WorldInv(After(w, steps))
    decreases |steps|
  {
    hide WorldInv;
    if steps != [] {
      NextInv(w, steps[0]);
      RunKeepsInv(Next(w, steps[0]), steps[1..]);
    }
  }

  lemma {:induction false} ReachableInv(w: World)
    requires Reachable(w)
    ensures WorldInv(w)
  {
    hide WorldInv;
    var start, steps :| Start(start) && Runs(start, steps) && w == After(start, steps);
    StartInv(start);
    RunKeepsInv(start, steps);
  }

  // ----- what the two ends know of each other -----

  /** The entry a joined end is held in has the key that end's news goes to. */
  lemma {:induction false} HeldAtHome(w: World, j: nat, b: nat)
    requires WorldInv(w) && j in w.nets && b in w.nets[j].log.holder
    ensures var h := w.nets[j].log.holder[b];
      h in w.nets[j].log.keyOf && b in w.home && w.home[b] == B.Link(j, w.nets[j].log.keyOf[h])
    ensures NS.Inv(w.nets[j])
  {
    NetIn(w, j);
  }

  /**
   What the sends on one end carried, in order, is what the other end's owner was
   given, then its buffer, then its inbox. After the far end closed it is all given
   or buffered; only an overflow loses what follows.
   */
  lemma {:induction false} EndToEnd(w: World, a: nat, j: nat, k: N.Slot)
    requires Reachable(w) && a in w.peer && j in w.nets && k in w.nets[j].entries
    requires w.nets[j].entries[k].conn == Some(w.peer[a])
    ensures a in w.sent
    ensures var e := w.nets[j].entries[k];
      var given := NS.Seen(w.nets[j], k);
      if e.gone.None? then given + NS.DataOf(w.nets[j].events, e.key) == w.sent[a]
      else if k.handle in w.nets[j].log.farGone then given == w.sent[a] && a in w.shut
      else given < w.sent[a] && |given| >= N.RECV_BACKLOG
  {
    ReachableInv(w);
    assert PairKept(w, a);
    var s := w.nets[j];
    NetIn(w, j);
    assert w.peer[a] in s.log.holder && s.log.holder[w.peer[a]] == k.handle;
    HeldAtHome(w, j, w.peer[a]);
    assert NS.ConservedAt(s, k);
    var key := s.entries[k].key;
    assert s.log.keyOf[k.handle] == key;
    hide NetsKept, EndsKept, PairsKept, NS.Inv, Bound;
    if s.entries[k].gone.None? {
      NS.DataAppend(s.log.processed, s.events, key);
    } else {
      var n: nat :| NS.EndedAt(s, k, n);
      EndedHeard(s, k, n);
      TimesSays(NS.Reports(s), key);
    }
  }

  /** What an entry took before it ended, of everything reported on its key. */
  lemma EndedHeard(s: N.Net, k: N.Slot, n: nat)
    requires k in s.entries && NS.EndedAt(s, k, n)
    ensures var key := s.entries[k].key;
      && (k.handle in s.log.farGone && Final(NS.Reports(s), key) ==> NS.Seen(s, k) == NS.DataOf(NS.Reports(s), key))
      && (k.handle in s.log.farGone ==> NS.SaysClosed(NS.Reports(s), key))
      && (k.handle !in s.log.farGone ==> NS.Seen(s, k) < NS.DataOf(NS.Reports(s), key) && |NS.Seen(s, k)| >= N.RECV_BACKLOG)
  {
    var key := s.entries[k].key;
    var r := NS.Reports(s);
    assert r[..n] == s.log.processed[..n] && r[n] == s.log.processed[n];
    if k.handle in s.log.farGone {
      NS.BeforeCloseIs(r, key, n);
    } else {
      assert r[..n + 1] == r[..n] + [r[n]];
      TimesAppend(r[..n], r[n], key);
      NS.DataGrows(r[..n + 1], r, key);
    }
  }

  /** And whatever became of the receiving entry, its owner was given a prefix of what was sent. */
  lemma {:induction false} ReceivedWasSent(w: World, a: nat, j: nat)
    requires Reachable(w) && a in w.peer && j in w.nets && w.peer[a] in w.nets[j].log.holder
    ensures a in w.sent
    ensures NS.HandedTo(w.nets[j].log.handed, w.nets[j].log.holder[w.peer[a]]) <= w.sent[a]
  {
    ReachableInv(w);
    HeldAtHome(w, j, w.peer[a]);
    hide NetsKept, EndsKept;
    assert PairKept(w, a);
    HandedIsHeard(w.nets[j], w.nets[j].log.holder[w.peer[a]]);
  }

  lemma HandedIsHeard(s: N.Net, h: nat)
    requires NS.Inv(s) && h in s.log.keyOf
    ensures NS.HandedTo(s.log.handed, h) <= NS.DataOf(NS.Reports(s), s.log.keyOf[h])
  {
    NS.DataAppend(s.log.processed, s.events, s.log.keyOf[h]);
  }

  /** A send that succeeds is recorded on its own end and no other; one that fails changes nothing. */
  lemma {:induction false} SendIsRecorded(w: World, n: nat, caller: N.Caller, handle: nat, data: Bytes)
    requires Reachable(w) && n in w.nets
    ensures var r := SendStep(w, n, caller, handle, data);
      if !r.1 then r.0 == w else
        && N.SendOn(w.nets[n], caller, handle, data).Ok?
        && var a := N.SendOn(w.nets[n], caller, handle, data).value;
          a in w.sent && w.bus.ends[a].other.Some? && r.0.sent == w.sent[a := w.sent[a] + [data]]
  {
    hide NetsKept, N.SendOn, N.Report, NS.Reports, NS.DataOf, TimesClosed, Final;
    ReachableInv(w);
    if SendStep(w, n, caller, handle, data).1 {
      var a := N.SendOn(w.nets[n], caller, handle, data).value;
      assert a in w.peer && PairKept(w, a);
    }
  }

  /** Once an end closed: the other side was told once, its own side never, and nothing is sent either way. */
  lemma {:induction false} AfterAClose(w: World, a: nat)
    requires Reachable(w) && a in w.shut
    ensures a in w.peer && a in w.home && w.peer[a] in w.home && w.home[a].net in w.nets && w.home[w.peer[a]].net in w.nets
    ensures TimesClosed(Heard(w, w.peer[a]), w.home[w.peer[a]].key) == 1
    ensures TimesClosed(Heard(w, a), w.home[a].key) == 0
    ensures a in w.bus.ends && w.peer[a] in w.bus.ends && B.Send(w.bus, a).Err? && B.Send(w.bus, w.peer[a]).Err?
  {
    ReachableInv(w);
    assert PairKept(w, a) && PairKept(w, w.peer[a]);
  }

  lemma {:induction false} StepKeepsShut(w: World, step: Step)
    requires Possible(w, step)
    ensures w.shut <= Next(w, step).shut
  {
    if step.Local? {
      var s, t := w.nets[step.net], NS.Next(w.nets[step.net], step.step);
      CloseEndsShut(w.(nets := w.nets[step.net := t]), if |s.log.closes| <= |t.log.closes| then t.log.closes[|s.log.closes|..] else []);
    }
  }

  lemma {:induction false} RunKeepsShut(w: World, steps: seq<Step>)
    requires Runs(w, steps)
    ensures w.shut <= After(w, steps).shut
    decreases |steps|
  {
    hide Next;
    if steps != [] {
      StepKeepsShut(w, steps[0]);
      RunKeepsShut(Next(w, steps[0]), steps[1..]);
    }
  }

  lemma {:induction false} CloseEndsPeers(w: World, cs: seq<nat>)
    ensures CloseEnds(w, cs).peer == w.peer
    decreases |cs|
  {
    if cs != [] {
      CloseEndsPeers(CloseEnd(w, cs[0]), cs[1..]);
    }
  }

  /** The ends joined in `w` are joined alike in `v`. */
  ghost predicate PeersStay(w: World, v: World) {
    forall c :: c in w.peer ==> c in v.peer && v.peer[c] == w.peer[c]
  }

  lemma {:induction false} StepKeepsPeers(w: World, step: Step)
    requires WorldInv(w) && Possible(w, step)
    ensures PeersStay(w, Next(w, step))
  {
    PeersBelow(w);
    hide PeersStay, WorldInv, OpenStep, ListenStep, SendStep, LocalStep, IsLocal;
    match step
    case Open(n, caller, address, queue, vital) => OpenKeepsPeers(w, n, caller, address, queue, vital);
    case Listen(n, caller, address, queue) => ListenKeepsPeers(w, n, caller, address, queue);
    case Send(n, caller, handle, data) => SendKeepsPeers(w, n, caller, handle, data);
    case Local(n, local) => LocalKeepsPeers(w, n, local);
  }

  lemma PeersBelow(w: World)
    requires WorldInv(w)
    ensures forall a :: a in w.peer ==> a < w.bus.nextEnd
  {
    hide NetsKept, EndsKept, PairsKept;
    PeersNumbered(w);
  }

  lemma LocalKeepsPeers(w: World, n: nat, local: NS.Step)
    requires n in w.nets
    ensures PeersStay(w, LocalStep(w, n, local))
  {
    hide NS.Next, CloseEnds;
    var s, t := w.nets[n], NS.Next(w.nets[n], local);
    CloseEndsPeers(w.(nets := w.nets[n := t]), if |s.log.closes| <= |t.log.closes| then t.log.closes[|s.log.closes|..] else []);
  }

  lemma OpenKeepsPeers(w: World, n: nat, caller: N.Caller, address: string, queue: Option<string>, vital: bool)
    requires n in w.nets && forall a :: a in w.peer ==> a < w.bus.nextEnd
    ensures PeersStay(w, OpenStep(w, n, caller, address, queue, vital))
  {
    hide N.BeginOpen, N.Settle, N.Arrive, B.Connect;
  }

  lemma ListenKeepsPeers(w: World, n: nat, caller: N.Caller, address: string, queue: Option<string>)
    requires n in w.nets
    ensures PeersStay(w, ListenStep(w, n, caller, address, queue))
  {
    hide N.BeginListen, N.Settle, B.Listen;
  }

  lemma SendKeepsPeers(w: World, n: nat, caller: N.Caller, handle: nat, data: Bytes)
    requires n in w.nets
    ensures PeersStay(w, SendStep(w, n, caller, handle, data).0)
  {
    hide N.SendOn, N.Report, B.Send;
  }

  lemma {:induction false} RunKeepsPeers(w: World, steps: seq<Step>)
    requires WorldInv(w) && Runs(w, steps)
    ensures PeersStay(w, After(w, steps))
    decreases |steps|
  {
    hide WorldInv, Next;
    if steps != [] {
      StepKeepsPeers(w, steps[0]);
      NextInv(w, steps[0]);
      RunKeepsPeers(Next(w, steps[0]), steps[1..]);
    }
  }

  /** Both ends of a closed connection stay cut off, whatever happens after. */
  lemma {:induction false} ClosedStaysClosed(w: World, steps: seq<Step>, a: nat)
    requires Reachable(w) && Runs(w, steps) && a in w.shut
    ensures a in w.peer
    ensures var v := After(w, steps);
      forall c | c in {a, w.peer[a]} ::
        c in v.bus.ends && v.bus.ends[c] == B.EndState(None, None, None, None) && B.Send(v.bus, c).Err?
  {
    ReachableInv(w);
    ShutIsPaired(w, a);
    RunKeepsInv(w, steps);
    RunKeepsShut(w, steps);
    RunKeepsPeers(w, steps);
    hide WorldInv, Runs, Reachable, After;
    ShutIsPaired(After(w, steps), a);
  }

  /** An end that was shut, and its peer, are dead on the bus. */
  lemma {:induction false} ShutIsPaired(w: World, a: nat)
    requires WorldInv(w) && a in w.shut
    ensures a in w.peer
    ensures forall c | c in {a, w.peer[a]} ::
      c in w.bus.ends && w.bus.ends[c] == B.EndState(None, None, None, None) && B.Send(w.bus, c).Err?
  {
    hide NetsKept, NS.Reports, NS.DataOf, TimesClosed, Final;
    assert a in w.peer;
    PairOf(w, a);
    PairOf(w, w.peer[a]);
  }

  lemma {:induction false} CloseEndsShut(w: World, cs: seq<nat>)
    ensures w.shut <= CloseEnds(w, cs).shut
    decreases |cs|
  {
    if cs != [] {
      CloseEndsShut(CloseEnd(w, cs[0]), cs[1..]);
    }
  }

  /** A connection its owner still sees open, whose far end closed, has the news waiting in its inbox. */
  lemma {:induction false} NewsIsWaiting(w: World, a: nat, j: nat, k: N.Slot)
    requires Reachable(w) && a in w.shut && a in w.peer && j in w.nets && k in w.nets[j].entries
    requires w.nets[j].entries[k].conn == Some(w.peer[a]) && w.nets[j].entries[k].gone.None?
    ensures NS.SaysClosed(w.nets[j].events, w.nets[j].entries[k].key)
  {
    ReachableInv(w);
    AfterAClose(w, a);
    var s := w.nets[j];
    NetIn(w, j);
    assert w.peer[a] in s.log.holder && s.log.holder[w.peer[a]] == k.handle;
    HeldAtHome(w, j, w.peer[a]);
    assert NS.TidyEntry(s, s.entries[k]);
    TimesSays(NS.Reports(s), s.entries[k].key);
    NT.SaysClosedSplit(s.log.processed, s.events, s.entries[k].key);
  }

  // ----- a connector goes away -----

  /** Both ends are open and joined. */
  predicate Joined(w: World, a: nat) {
    a in w.bus.ends && w.bus.ends[a].other.Some?
  }

  ghost predicate HoldsLive(s: N.Net, c: nat) {
    exists k :: LiveWith(s, k, c)
  }

  predicate LiveWith(s: N.Net, k: N.Slot, c: nat) {
    k in s.entries && s.entries[k].gone.None? && s.entries[k].conn == Some(c)
  }

  lemma {:induction false} CloseEndInv(w: World, c: nat)
    requires WorldInv(w)
    ensures WorldInv(CloseEnd(w, c))
  {
    hide WorldInv;
    if c in w.bus.ends {
      if w.bus.ends[c].other.None? { CloseLoneEnd(w, c); } else { CloseJoinedEnd(w, c); }
    }
  }

  lemma {:induction false} CloseEndCuts(w: World, c: nat, a: nat)
    requires WorldInv(w) && a in w.peer
    ensures var v := CloseEnd(w, c);
      && v.peer == w.peer
      && (Joined(v, a) <==> Joined(w, a) && c != a && c != w.peer[a])
      && (c == a && Joined(w, a) ==> a in v.shut)
  {
    hide NetsKept, EndsKept, PairsKept, PairKept, CloseEnd, Told, Parted;
    if c !in w.bus.ends {
      MissingEnd(w, c, a);
    } else if w.bus.ends[c].other.None? {
      LoneEndCuts(w, c, a);
    } else {
      CloseJoinedParts(w, c);
      PartedCuts(w, CloseEnd(w, c), c, a);
    }
  }

  lemma MissingEnd(w: World, c: nat, a: nat)
    requires PairsKept(w) && c !in w.bus.ends && a in w.peer
    ensures CloseEnd(w, c) == w && c != a && c != w.peer[a]
  {
    hide NS.Reports, NS.DataOf, TimesClosed, Final;
    PairOf(w, a);
  }

  /** How a pair's ends stand to each other. */
  lemma PairJoined(w: World, a: nat)
    requires PairsKept(w) && a in w.peer
    ensures w.peer[a] in w.peer && w.peer[w.peer[a]] == a && a in w.bus.ends && w.peer[a] in w.bus.ends
    ensures w.bus.ends[a].other == if Joined(w, a) then Some(w.peer[a]) else None
    ensures Joined(w, w.peer[a]) <==> Joined(w, a)
  {
    hide NS.Reports, NS.DataOf, TimesClosed, Final;
    PairOf(w, a);
  }

  lemma LoneEndCuts(w: World, c: nat, a: nat)
    requires PairsKept(w) && c in w.bus.ends && w.bus.ends[c].other.None? && a in w.peer
    ensures var v := CloseEnd(w, c);
      v.peer == w.peer && (Joined(v, a) <==> Joined(w, a) && c != a && c != w.peer[a]) && !(c == a && Joined(w, a))
  {
    PairJoined(w, a);
    hide PairsKept;
  }

  lemma PartedCuts(w: World, v: World, c: nat, a: nat)
    requires PairsKept(w) && Parted(w, v, c) && a in w.peer
    ensures v.peer == w.peer && c in v.shut
    ensures Joined(v, a) <==> Joined(w, a) && c != a && c != w.peer[a]
  {
    PairJoined(w, a);
    PairJoined(w, c);
    hide PairsKept, N.Report;
  }

  /** Of the ends closed, each cuts its own connection and no other. */
  lemma {:induction false} CloseEndsCut(w: World, cs: seq<nat>, a: nat)
    requires WorldInv(w) && a in w.peer
    ensures var v := CloseEnds(w, cs);
      && v.peer == w.peer
      && (Joined(v, a) <==> Joined(w, a) && a !in cs && w.peer[a] !in cs)
    decreases |cs|
  {
    hide WorldInv, CloseEnd, Joined;
    if cs != [] {
      CloseEndInv(w, cs[0]);
      CloseEndCuts(w, cs[0], a);
      CloseEndsCut(CloseEnd(w, cs[0]), cs[1..], a);
      assert forall c: nat :: c in cs <==> c == cs[0] || c in cs[1..];
    }
  }

  /** The end closed first of its pair is the one that shuts it. */
  lemma {:induction false} FirstShuts(w: World, cs: seq<nat>, a: nat, i: nat)
    requires WorldInv(w) && a in w.peer && Joined(w, a) && i < |cs| && cs[i] == a
    requires forall j :: 0 <= j < i ==> cs[j] != a && cs[j] != w.peer[a]
    ensures a in CloseEnds(w, cs).shut
    decreases |cs|
  {
    hide WorldInv, CloseEnd, Joined;
    CloseEndInv(w, cs[0]);
    CloseEndCuts(w, cs[0], a);
    if i == 0 {
      CloseEndsShut(CloseEnd(w, a), cs[1..]);
    } else {
      FirstShuts(CloseEnd(w, cs[0]), cs[1..], a, i - 1);
    }
  }

  /** What the connector holds is closed in the order of its table. */
  lemma {:induction false} FirstToClose(s: N.Net, ks: seq<N.Slot>, m: nat, a: nat, b: nat) returns (i: nat)
    requires (forall k :: k in ks ==> k in s.entries) && m < |ks| && LiveWith(s, ks[m], a)
    requires forall j :: 0 <= j < m ==> !LiveWith(s, ks[j], a) && !LiveWith(s, ks[j], b)
    ensures var cs := N.ConnsToClose(s.entries, ks);
      i < |cs| && cs[i] == a && forall j :: 0 <= j < i ==> cs[j] != a && cs[j] != b
  {
    if m == 0 {
      i := 0;
    } else {
      assert forall j {:trigger ks[1..][j]} :: 0 <= j < m - 1 ==> ks[1..][j] == ks[j + 1];
      i := FirstToClose(s, ks[1..], m - 1, a, b);
      var e := s.entries[ks[0]];
      if e.gone.None? && e.conn.Some? {
        assert !LiveWith(s, ks[0], a) && !LiveWith(s, ks[0], b);
        i := i + 1;
      }
    }
  }

  /** The drop as the closing of what the table held, in a world that keeps everything. */
  lemma {:induction false} DropIsCloseEnds(w: World, n: nat) returns (u: World, cs: seq<nat>)
    requires WorldInv(w) && n in w.nets
    ensures WorldInv(u) && u.bus == w.bus && u.peer == w.peer && u.shut == w.shut
    ensures cs == N.ConnsToClose(w.nets[n].entries, N.Ascending(w.nets[n].entries.Keys))
    ensures Next(w, Local(n, NS.DropStep)) == CloseEnds(u, cs)
    ensures WorldInv(CloseEnds(u, cs))
  {
    hide NetsKept, EndsKept, PairsKept, WorldInv, NS.Inv, Bound, Next, N.Dropped, CloseEnds, N.ConnsToClose;
    var s := w.nets[n];
    cs := N.ConnsToClose(s.entries, N.Ascending(s.entries.Keys));
    DroppedWorld(w, n);
    DropNext(w, n);
    u := w.(nets := w.nets[n := N.Dropped(s)]);
    CloseEndsInv(u, cs);
  }

  lemma DropNext(w: World, n: nat)
    requires n in w.nets
    ensures var s := w.nets[n];
      Next(w, Local(n, NS.DropStep))
      == CloseEnds(w.(nets := w.nets[n := N.Dropped(s)]), N.ConnsToClose(s.entries, N.Ascending(s.entries.Keys)))
  {
    hide N.Dropped, CloseEnds, N.ConnsToClose;
    DroppedCloses(w.nets[n]);
  }

  lemma DroppedWorld(w: World, n: nat)
    requires WorldInv(w) && n in w.nets
    ensures WorldInv(w.(nets := w.nets[n := N.Dropped(w.nets[n])]))
  {
    hide NetsKept, EndsKept, PairsKept, NS.Inv, Bound, NS.Reports, N.Dropped;
    NetIn(w, n);
    var s := w.nets[n];
    NS.DropInv(s);
    DroppedIsSame(s);
    LookBound(s, N.Dropped(s), n, w.home);
    QuietNet(w, n, N.Dropped(s));
  }

  lemma DroppedCloses(s: N.Net)
    ensures var t := N.Dropped(s);
      |s.log.closes| <= |t.log.closes|
      && t.log.closes[|s.log.closes|..] == N.ConnsToClose(s.entries, N.Ascending(s.entries.Keys))
  {
  }

  lemma {:induction false} TableCloses(s: N.Net, c: nat)
    ensures c in N.ConnsToClose(s.entries, N.Ascending(s.entries.Keys)) <==> HoldsLive(s, c)
  {
    NS.ToCloseExact(s.entries, N.Ascending(s.entries.Keys));
    assert forall k :: k in N.Ascending(s.entries.Keys) && s.entries[k].gone.None? && s.entries[k].conn == Some(c) ==> LiveWith(s, k, c);
    if k :| LiveWith(s, k, c) {
      assert k in N.Ascending(s.entries.Keys);
    }
  }

  /**
   A connector going away cuts a connection exactly when it held one of its ends in a
   live entry; an arrival no sweep had read is not held. Cut or not, the two sides
   are told of one close or none between them.
   */
  lemma {:induction false} DropCutsExactly(w: World, n: nat, a: nat)
    requires Reachable(w) && Possible(w, Local(n, NS.DropStep)) && a in w.peer
    ensures var v := Next(w, Local(n, NS.DropStep));
      && a in v.peer && v.peer[a] == w.peer[a]
      && (Joined(v, a) <==> Joined(w, a) && !HoldsLive(w.nets[n], a) && !HoldsLive(w.nets[n], w.peer[a]))
      && a in v.bus.ends && v.peer[a] in v.bus.ends
      && (B.Send(v.bus, a).Ok? <==> Joined(v, a)) && (B.Send(v.bus, v.peer[a]).Ok? <==> Joined(v, a))
      && a in v.home && v.home[a].net in v.nets && v.peer[a] in v.home && v.home[v.peer[a]].net in v.nets
      && TimesClosed(Heard(v, a), v.home[a].key) + TimesClosed(Heard(v, v.peer[a]), v.home[v.peer[a]].key)
         == if Joined(v, a) then 0 else 1
  {
    hide HoldsLive, Reachable, WorldInv, CloseEnds, Joined, Next, N.ConnsToClose, TimesClosed, Heard;
    ReachableInv(w);
    var u, cs := DropIsCloseEnds(w, n);
    var v := CloseEnds(u, cs);
    CloseEndsCut(u, cs, a);
    TableCloses(w.nets[n], a);
    TableCloses(w.nets[n], w.peer[a]);
    assert Joined(u, a) <==> Joined(w, a) by { JoinedOnBus(u, w, a); }
    PairTold(v, a);
  }

  lemma JoinedOnBus(w: World, v: World, a: nat)
    requires v.bus == w.bus
    ensures Joined(v, a) <==> Joined(w, a)
  {
  }

  /** A joined pair was told nothing and carries sends; a parted one was told once and carries none. */
  lemma {:induction false} PairTold(w: World, a: nat)
    requires WorldInv(w) && a in w.peer
    ensures a in w.bus.ends && w.peer[a] in w.bus.ends
    ensures (B.Send(w.bus, a).Ok? <==> Joined(w, a)) && (B.Send(w.bus, w.peer[a]).Ok? <==> Joined(w, a))
    ensures a in w.home && w.home[a].net in w.nets && w.peer[a] in w.home && w.home[w.peer[a]].net in w.nets
    ensures TimesClosed(Heard(w, a), w.home[a].key) + TimesClosed(Heard(w, w.peer[a]), w.home[w.peer[a]].key)
            == if Joined(w, a) then 0 else 1
  {
    hide NetsKept, EndsKept, NS.Reports, NS.DataOf, TimesClosed, Final;
    PairOf(w, a);
    PairOf(w, w.peer[a]);
  }

  /**
   And the far side is the one told, when the end the connector held comes first in its
   table: then its own end is shut, and `AfterAClose` and `ClosedStaysClosed` apply.
   */
  lemma {:induction false} DropShuts(w: World, n: nat, k: N.Slot, a: nat)
    requires Reachable(w) && Possible(w, Local(n, NS.DropStep)) && a in w.peer && Joined(w, a)
    requires LiveWith(w.nets[n], k, a)
    requires forall j :: LiveWith(w.nets[n], j, w.peer[a]) ==> N.Before(k, j)
    ensures a in Next(w, Local(n, NS.DropStep)).shut
  {
    hide Reachable, WorldInv, CloseEnds, NS.Inv, Next, N.ConnsToClose;
    ReachableInv(w);
    WorldNet(w, n);
    var s := w.nets[n];
    var u, cs := DropIsCloseEnds(w, n);
    var m := AloneInOrder(s, k, a, w.peer[a]);
    var i := FirstToClose(s, N.Ascending(s.entries.Keys), m, a, w.peer[a]);
    FirstShuts(u, cs, a, i);
  }

  lemma WorldNet(w: World, n: nat)
    requires WorldInv(w) && n in w.nets
    ensures NS.Inv(w.nets[n])
  {
    hide NS.Inv, EndsKept, PairsKept;
  }

  lemma {:induction false} AloneInOrder(s: N.Net, k: N.Slot, a: nat, b: nat) returns (m: nat)
    requires NS.Inv(s) && LiveWith(s, k, a) && forall j :: LiveWith(s, j, b) ==> N.Before(k, j)
    ensures var ks := N.Ascending(s.entries.Keys);
      && m < |ks| && ks[m] == k
      && forall j :: 0 <= j < m ==> !LiveWith(s, ks[j], a) && !LiveWith(s, ks[j], b)
  {
    assert NS.Numbered(s) && NS.ConnsPlaced(s);
    hide NS.Inv;
    var ks := N.Ascending(s.entries.Keys);
    N.AscendingInOrder(s.entries.Keys);
    assert k in ks;
    m :| 0 <= m < |ks| && ks[m] == k;
    forall j | 0 <= j < m
      ensures !LiveWith(s, ks[j], a) && !LiveWith(s, ks[j], b)
    {
      assert N.Before(ks[j], ks[m]) && !N.Before(k, ks[j]);
      NS.SlotAlone(s, k);
    }
  }

  // ----- opening on a bus -----

  /** An open finds the listener its address names: the news of the other end goes to it, and the opener holds its own end. */
  lemma {:induction false} OpenArrives(w: World, n: nat, caller: N.Caller, address: string, queue: Option<string>, vital: bool)
    requires n in w.nets && address in w.bus.listeners && w.bus.listeners[address].net in w.nets
    ensures var k, v := N.Slot(caller, w.nets[n].nextHandle), OpenStep(w, n, caller, address, queue, vital);
      var l, a := w.bus.listeners[address], w.bus.nextEnd;
      && n in v.nets && k in v.nets[n].entries && v.nets[n].entries[k].conn == Some(a)
      && l.net in v.nets && News(v.nets[l.net].events, l.key, a + 1, address + "-peer")
      && a in v.peer && v.peer[a] == a + 1 && Joined(v, a)
  {
    var s := w.nets[n];
    var w1 := w.(nets := w.nets[n := N.BeginOpen(s, caller, address, queue, vital)]);
    var l := w.bus.listeners[address];
    var w2 := ConnectEnds(w1, B.Link(n, s.nextKey), l, address + "-peer");
    assert News(w2.nets[l.net].events, l.key, w.bus.nextEnd + 1, address + "-peer");
    assert Joined(w2, w.bus.nextEnd);
    assert N.Slot(caller, s.nextHandle) in w2.nets[n].entries;
    hide ConnectEnds, N.BeginOpen, News;
  }

  /** The last event is the news of this connection. */
  predicate News(events: seq<N.Event>, listener: nat, conn: nat, peer: string) {
    events != [] && var ev := events[|events| - 1];
    ev.Accepted? && ev.listener == listener && ev.conn == conn && ev.peer == peer
  }

  /** With nobody listening there the opener's handle goes, and nothing else changes on the bus. */
  lemma {:induction false} OpenRefused(w: World, n: nat, caller: N.Caller, address: string, queue: Option<string>, vital: bool)
    requires n in w.nets && (address !in w.bus.listeners || w.bus.listeners[address].net !in w.nets)
    ensures var v := OpenStep(w, n, caller, address, queue, vital);
      && n in v.nets && N.Slot(caller, w.nets[n].nextHandle) !in v.nets[n].entries && v.bus == w.bus && v.peer == w.peer
      && forall m :: m in w.nets && m != n ==> m in v.nets && v.nets[m] == w.nets[m]
  {
  }
}
