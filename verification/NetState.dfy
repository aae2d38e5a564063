/**
 The net connector as a state machine over values: the handle table, the
 transport's inbox, the pending offers, and one function for each thing that
 can happen to them. `NetConnector` is the object that runs these steps in
 place; `NetSafety` proves what every run of them keeps.
 */
module NetState {
  import opened Prelude

  /** Unread messages one buffered connection holds. */
  const RECV_BACKLOG: nat := 1024
  /** Unaccepted connections one buffered listener holds. */
  const ACCEPT_BACKLOG: nat := 64
  /** What an owner is told when `RECV_BACKLOG` was passed. */
  const OVERFLOW: string := "more than 1024 messages arrived unread"
  /** The most one `send` takes. */
  const SEND_MAX: nat := 1024 * 1024

  /** What the transport names a connection or a listener by. */
  type Conn = nat

  datatype Caller = Root | Node(id: nat)

  datatype Slot = Slot(owner: Caller, handle: nat)

  /** One thing the transport said, under the key of the link it said it on. */
  datatype Event =
    | Data(key: nat, data: Bytes)
    | Closed(key: nat, reason: Option<string>)
    | Accepted(key: nat, listener: nat, conn: Conn, peer: string)

  datatype Entry = Entry(
    key: nat,
    conn: Option<Conn>,
    listener: bool,
    name: string,
    queue: Option<string>,
    vital: bool,
    inbound: seq<Bytes>,
    waiting: Option<nat>,
    gone: Option<Option<string>>)

  datatype Offer = Offer(from: Caller, to: Caller, handle: nat)

  datatype Message =
    | DataPush(handle: nat, data: Bytes)
    | ClosedPush(handle: nat, reason: Option<string>)
    | AcceptedPush(handle: nat, conn: nat, peer: string)

  datatype Notice = Notice(owner: Caller, queue: string, message: Message)

  /** Why an owner whose connection was vital ends. */
  datatype Ending = Ending(owner: Caller, cause: Cause, listener: bool, name: string)

  datatype Cause = FarEnd | Overflow | OwnClose

  datatype CallError =
    | NoSuchHandle
    | NotAListener
    | NotAConnection
    | PushesTo(queue: string)
    | IsClosed(reason: Option<string>)
    | StillOpening
    | TooLong
    | TransferToSelf
    | Refused(why: string)

  /** One look of a call that may wait. */
  datatype Poll<+T> = Pending | Ready(answer: Result<T, CallError>)

  datatype Received = Got(data: Bytes) | Eof(reason: Option<string>)

  /** Data that reached an owner: a data push under its queue, or a `recv` answer. */
  datatype Delivery = Delivery(handle: nat, data: Bytes, to: Caller, queue: Option<string>)

  /**
   What has happened so far, kept beside the state so that runs can be spoken of.
   `handed` is every message given to an owner, `closes` every `Transport::close`
   in call order, `processed` the events already swept, `keyOf` the key each
   handle was issued with, `holder` the handle each Conn was put into the table
   under. `farGone` and `stranded` are the handles whose entry was marked gone by
   the far end, or by an overflow while it had no Conn yet; `refused` those the
   transport refused. `opening` holds the `open` and `listen` calls the transport
   has not answered yet, and `dropped` says that the connector itself has gone.
   */
  datatype Log = Log(
    processed: seq<Event>,
    handed: seq<Delivery>,
    closes: seq<Conn>,
    keyOf: map<nat, nat>,
    seen: set<Conn>,
    holder: map<Conn, nat>,
    farGone: set<nat>,
    stranded: set<nat>,
    refused: set<nat>,
    opening: set<Slot>,
    dropped: bool)

  datatype Net = Net(
    entries: map<Slot, Entry>,
    nextHandle: nat,
    nextKey: nat,
    events: seq<Event>,
    offers: seq<Offer>,
    ended: seq<Ending>,
    pushes: seq<Notice>,
    log: Log)

  const Fresh: Net := Net(map[], 1, 1, [], [], [], [], Log([], [], [], map[], {}, map[], {}, {}, {}, {}, false))

  // ----- the table's order -----

  function Rank(c: Caller): nat {
    match c case Root => 0 case Node(id) => id + 1
  }

  /** The table is walked by owner, then by handle. */
  predicate Before(a: Slot, b: Slot) {
    Rank(a.owner) < Rank(b.owner) || (a.owner == b.owner && a.handle < b.handle)
  }

  ghost predicate IsLeast(m: Slot, S: set<Slot>) {
    m in S && forall k :: k in S && k != m ==> Before(m, k)
  }

  lemma {:induction false} LeastExists(S: set<Slot>)
    requires S != {}
    ensures exists m :: IsLeast(m, S)
  {
    var x :| x in S;
    if S == {x} {
      assert IsLeast(x, S);
    } else {
      LeastExists(S - {x});
      var m :| IsLeast(m, S - {x});
      assert Before(x, m) || Before(m, x);
      forall k | k in S && k != x && Before(x, m)
        ensures Before(x, k)
      {
        assert k == m || Before(m, k);
      }
      assert IsLeast(if Before(x, m) then x else m, S);
    }
  }

  /** `S` in table order. */
  ghost function Ascending(S: set<Slot>): (ks: seq<Slot>)
    ensures forall k :: k in ks <==> k in S
  {
    if S == {} then [] else
      LeastExists(S);
      var m :| IsLeast(m, S);
      [m] + Ascending(S - {m})
  }

  lemma {:induction false} AscendingInOrder(S: set<Slot>)
    ensures forall i, j :: 0 <= i < j < |Ascending(S)| ==> Before(Ascending(S)[i], Ascending(S)[j])
  {
    if S != {} {
      LeastExists(S);
      var m :| IsLeast(m, S) && Ascending(S) == [m] + Ascending(S - {m});
      AscendingInOrder(S - {m});
    }
  }

  // ----- looking things up -----

  /** The entry a key belongs to. Keys are never shared (`NetSafety.Numbered`). */
  ghost function SlotOf(entries: map<Slot, Entry>, key: nat): (r: Option<Slot>)
    ensures r.Some? ==> r.value in entries && entries[r.value].key == key
    ensures r.None? ==> forall k :: k in entries ==> entries[k].key != key
  {
    if k :| k in entries && entries[k].key == key then Some(k) else None
  }

  /** One of `caller`'s issued handles; a waiting connection is not one. */
  predicate Mine(s: Net, k: Slot) {
    k in s.entries && s.entries[k].waiting.None?
  }

  function WaitingUnder(entries: map<Slot, Entry>, owner: Caller, listener: nat): set<Slot> {
    set k | k in entries && k.owner == owner && entries[k].waiting == Some(listener)
  }

  ghost function OldestWaiting(s: Net, owner: Caller, listener: nat): Option<nat> {
    var w := Ascending(WaitingUnder(s.entries, owner, listener));
    if w == [] then None else Some(w[0].handle)
  }

  // ----- issuing and taking back -----

  function Insert(s: Net, owner: Caller, e: Entry): Net {
    s.(entries := s.entries[Slot(owner, s.nextHandle) := e],
       nextHandle := s.nextHandle + 1,
       log := s.log.(keyOf := s.log.keyOf[s.nextHandle := e.key],
                     holder := if e.conn.Some? then s.log.holder[e.conn.value := s.nextHandle] else s.log.holder))
  }

  /** The Conns `close_all` closes: of entries still live and holding one. */
  function ConnsToClose(entries: map<Slot, Entry>, ks: seq<Slot>): seq<Conn>
    requires forall k :: k in ks ==> k in entries
  {
    if ks == [] then [] else
      var e := entries[ks[0]];
      (if e.gone.None? && e.conn.Some? then [e.conn.value] else []) + ConnsToClose(entries, ks[1..])
  }

  /** The report of what was cut with its far end still there. */
  function Lost(entries: map<Slot, Entry>, ks: seq<Slot>): seq<string>
    requires forall k :: k in ks ==> k in entries
  {
    if ks == [] then [] else
      var e := entries[ks[0]];
      (if e.gone.None? && !e.listener && e.waiting.None? then [e.name] else []) + Lost(entries, ks[1..])
  }

  /** Take the slots in `S` out of the table and close what they hold. */
  ghost function TakeBack(s: Net, S: set<Slot>): Net
    requires S <= s.entries.Keys
  {
    s.(entries := s.entries - S,
       log := s.log.(closes := s.log.closes + ConnsToClose(s.entries, Ascending(S))))
  }

  // ----- what the transport does -----

  /** `Link::receive` and `Link::closed`. */
  function Report(s: Net, ev: Event): Net {
    s.(events := s.events + [ev])
  }

  /** `Acceptor::connection`: a key for the new link, and the news of it. */
  function Arrive(s: Net, listener: nat, conn: Conn, peer: string): Net {
    s.(nextKey := s.nextKey + 1,
       events := s.events + [Accepted(s.nextKey, listener, conn, peer)],
       log := s.log.(seen := s.log.seen + {conn}))
  }

  // ----- the sweep -----

  function Push(s: Net, n: Notice): Net {
    s.(pushes := s.pushes + [n],
       log := if n.message.DataPush?
              then s.log.(handed := s.log.handed + [Delivery(n.message.handle, n.message.data, n.owner, Some(n.queue))])
              else s.log)
  }

  function End(s: Net, e: Ending): Net {
    s.(ended := s.ended + [e])
  }

  function RouteData(s: Net, k: Slot, data: Bytes): Net
    requires k in s.entries
  {
    var e := s.entries[k];
    if e.gone.Some? then s
    else if e.queue.Some? then Push(s, Notice(k.owner, e.queue.value, DataPush(k.handle, data)))
    else if |e.inbound| >= RECV_BACKLOG then
      var s1 := if e.vital then End(s, Ending(k.owner, Overflow, e.listener, e.name)) else s;
      s1.(entries := s.entries[k := e.(gone := Some(Some(OVERFLOW)))],
          log := if e.conn.Some? then s.log.(closes := s.log.closes + [e.conn.value])
                 else s.log.(stranded := s.log.stranded + {k.handle}))
    else s.(entries := s.entries[k := e.(inbound := e.inbound + [data])])
  }

  function RouteClosed(s: Net, k: Slot, reason: Option<string>): Net
    requires k in s.entries
  {
    var e := s.entries[k];
    if e.gone.Some? then s else
      var s1 := if e.queue.Some? then Push(s, Notice(k.owner, e.queue.value, ClosedPush(k.handle, reason))) else s;
      var s2 := if e.vital then End(s1, Ending(k.owner, FarEnd, e.listener, e.name)) else s1;
      s2.(entries := s.entries[k := e.(gone := Some(reason))],
          log := s2.log.(farGone := s2.log.farGone + {k.handle}))
  }

  /** `Entry::new` for a connection that arrived under listener `l`. */
  function Arrived(ev: Event, l: Slot, queue: Option<string>): Entry
    requires ev.Accepted?
  {
    Entry(ev.key, Some(ev.conn), false, ev.peer, queue, false, [], if queue.None? then Some(l.handle) else None, None)
  }

  function TurnAway(s: Net, conn: Conn): Net {
    s.(log := s.log.(closes := s.log.closes + [conn]))
  }

  function RouteAccepted(s: Net, l: Slot, ev: Event): Net
    requires l in s.entries && ev.Accepted?
  {
    var e := s.entries[l];
    if !e.listener || e.gone.Some? then TurnAway(s, ev.conn)
    else if e.queue.None? && |WaitingUnder(s.entries, l.owner, l.handle)| >= ACCEPT_BACKLOG then TurnAway(s, ev.conn)
    else
      var s1 := Insert(s, l.owner, Arrived(ev, l, e.queue));
      if e.queue.Some?
      then Push(s1, Notice(l.owner, e.queue.value, AcceptedPush(l.handle, s.nextHandle, ev.peer)))
      else s1
  }

  /** Put one event where it belongs. */
  ghost function Route(s: Net, ev: Event): Net {
    var r := match ev
      case Data(key, data) =>
        var k := SlotOf(s.entries, key);
        if k.None? then s else RouteData(s, k.value, data)
      case Closed(key, reason) =>
        var k := SlotOf(s.entries, key);
        if k.None? then s else RouteClosed(s, k.value, reason)
      case Accepted(_, listener, conn, _) =>
        var l := SlotOf(s.entries, listener);
        if l.None? then TurnAway(s, conn) else RouteAccepted(s, l.value, ev);
    r.(log := r.log.(processed := s.log.processed + [ev]))
  }

  /** Take the first event off the inbox and route it. */
  ghost function RouteHead(s: Net): Net
    requires s.events != []
  {
    Route(s.(events := s.events[1..]), s.events[0])
  }

  lemma RouteKeepsEvents(s: Net, ev: Event)
    ensures Route(s, ev).events == s.events
  {
  }

  /** Everything the transport has said, routed in order. */
  ghost function Sweep(s: Net): Net
    decreases |s.events|
  {
    if s.events == [] then s else
      RouteKeepsEvents(s.(events := s.events[1..]), s.events[0]);
      Sweep(RouteHead(s))
  }

  // ----- the calls -----

  function Begin(s: Net, caller: Caller, e: Entry): Net {
    Insert(s.(nextKey := s.nextKey + 1, log := s.log.(opening := s.log.opening + {Slot(caller, s.nextHandle)})), caller, e)
  }

  /** `open` up to the transport: the entry, and so the owner, exists first. */
  function BeginOpen(s: Net, caller: Caller, address: string, queue: Option<string>, vital: bool): Net {
    Begin(s, caller, Entry(s.nextKey, None, false, address, queue, vital, [], None, None))
  }

  /** `listen` up to the transport. */
  function BeginListen(s: Net, caller: Caller, address: string, queue: Option<string>): Net {
    Begin(s, caller, Entry(s.nextKey, None, true, address, queue, false, [], None, None))
  }

  /** The transport's answer, put into the entry made before asking it. */
  function Settle(s: Net, caller: Caller, handle: nat, answer: Result<Conn, string>): Net {
    var k := Slot(caller, handle);
    match answer
    case Ok(conn) =>
      var s1 := s.(log := s.log.(seen := s.log.seen + {conn}, opening := s.log.opening - {k}));
      if k in s.entries
      then s1.(entries := s.entries[k := s.entries[k].(conn := Some(conn))],
               log := s1.log.(holder := s.log.holder[conn := handle]))
      else TurnAway(s1, conn)
    case Err(_) =>
      s.(entries := s.entries - {k},
         log := s.log.(opening := s.log.opening - {k},
                       refused := if k in s.entries then s.log.refused + {handle} else s.log.refused))
  }

  function DataPushes(owner: Caller, queue: string, handle: nat, inbound: seq<Bytes>): seq<Notice> {
    if inbound == [] then []
    else [Notice(owner, queue, DataPush(handle, inbound[0]))] + DataPushes(owner, queue, handle, inbound[1..])
  }

  function Deliveries(k: Slot, queue: Option<string>, inbound: seq<Bytes>): seq<Delivery> {
    if inbound == [] then [] else [Delivery(k.handle, inbound[0], k.owner, queue)] + Deliveries(k, queue, inbound[1..])
  }

  /** What arrived while the entry buffered, as pushes (`Entry::flush`). */
  function Flush(e: Entry, k: Slot): seq<Notice> {
    if e.queue.None? then [] else
      DataPushes(k.owner, e.queue.value, k.handle, e.inbound)
      + if e.gone.Some? then [Notice(k.owner, e.queue.value, ClosedPush(k.handle, e.gone.value))] else []
  }

  /** The new owner's declarations, and the flush they call for. */
  function Adopt(s: Net, k: Slot, queue: Option<string>, vital: bool): Net
    requires k in s.entries
  {
    var e := s.entries[k].(waiting := None, vital := vital, queue := queue);
    if queue.None? then s.(entries := s.entries[k := e]) else
      s.(entries := s.entries[k := e.(inbound := [])],
         pushes := s.pushes + Flush(e, k),
         log := s.log.(handed := s.log.handed + Deliveries(k, queue, e.inbound)))
  }

  /** One poll of `accept`, after its sweep: the accepted handle and its peer. */
  ghost function AcceptLook(s: Net, caller: Caller, listener: nat, queue: Option<string>, vital: bool)
    : (Net, Poll<(nat, string)>)
  {
    var l := Slot(caller, listener);
    if !Mine(s, l) then (s, Ready(Err(NoSuchHandle))) else
    var e := s.entries[l];
    if !e.listener then (s, Ready(Err(NotAListener)))
    else if e.queue.Some? then (s, Ready(Err(PushesTo(e.queue.value))))
    else
      match OldestWaiting(s, caller, listener)
      case Some(h) =>
        var k := Slot(caller, h);
        if k in s.entries then (Adopt(s, k, queue, vital), Ready(Ok((h, s.entries[k].name))))
        else (s, Ready(Err(NoSuchHandle)))
      case None =>
        if e.gone.Some? then (s, Ready(Err(IsClosed(e.gone.value)))) else (s, Pending)
  }

  ghost function Accept(s: Net, caller: Caller, listener: nat, queue: Option<string>, vital: bool)
    : (Net, Poll<(nat, string)>)
  {
    AcceptLook(Sweep(s), caller, listener, queue, vital)
  }

  /** The Conn a `send` goes out on. */
  function SendOn(s: Net, caller: Caller, handle: nat, data: Bytes): Result<Conn, CallError> {
    var k := Slot(caller, handle);
    if |data| > SEND_MAX then Err(TooLong)
    else if !Mine(s, k) then Err(NoSuchHandle)
    else if s.entries[k].listener then Err(NotAConnection)
    else if s.entries[k].gone.Some? then Err(IsClosed(s.entries[k].gone.value))
    else if s.entries[k].conn.None? then Err(StillOpening)
    else Ok(s.entries[k].conn.value)
  }

  /** One poll of `recv`, after its sweep. */
  function RecvLook(s: Net, caller: Caller, handle: nat): (Net, Poll<Received>) {
    var k := Slot(caller, handle);
    if !Mine(s, k) then (s, Ready(Err(NoSuchHandle))) else
    var e := s.entries[k];
    if e.listener then (s, Ready(Err(NotAConnection)))
    else if e.queue.Some? then (s, Ready(Err(PushesTo(e.queue.value))))
    else if e.inbound != [] then
      (s.(entries := s.entries[k := e.(inbound := e.inbound[1..])],
          log := s.log.(handed := s.log.handed + [Delivery(handle, e.inbound[0], caller, None)])),
       Ready(Ok(Got(e.inbound[0]))))
    else if e.gone.Some? then (s, Ready(Ok(Eof(e.gone.value))))
    else (s, Pending)
  }

  ghost function Recv(s: Net, caller: Caller, handle: nat): (Net, Poll<Received>) {
    RecvLook(Sweep(s), caller, handle)
  }

  function Without(offers: seq<Offer>, from: Caller, handle: nat): seq<Offer> {
    if offers == [] then []
    else (if offers[0].from == from && offers[0].handle == handle then [] else [offers[0]])
         + Without(offers[1..], from, handle)
  }

  function WithoutParty(offers: seq<Offer>, who: Caller): seq<Offer> {
    if offers == [] then []
    else (if offers[0].from == who || offers[0].to == who then [] else [offers[0]])
         + WithoutParty(offers[1..], who)
  }

  ghost function Close(s: Net, caller: Caller, handle: nat): (Net, Result<(), CallError>) {
    var k := Slot(caller, handle);
    if !Mine(s, k) then (s, Err(NoSuchHandle)) else
      var e := s.entries[k];
      var s1 := TakeBack(s, WaitingUnder(s.entries, caller, handle));
      var s2 := TakeBack(s1, {k}).(offers := Without(s.offers, caller, handle));
      (if e.vital then End(s2, Ending(caller, OwnClose, e.listener, e.name)) else s2, Ok(()))
  }

  function Transfer(s: Net, caller: Caller, handle: nat, to: Caller): (Net, Result<(), CallError>) {
    if to == caller then (s, Err(TransferToSelf))
    else if !Mine(s, Slot(caller, handle)) then (s, Err(NoSuchHandle))
    else (s.(offers := Without(s.offers, caller, handle) + [Offer(caller, to, handle)]), Ok(()))
  }

  /** The oldest offer addressed to `caller`, of `named` when it names one. */
  function FirstOffer(offers: seq<Offer>, caller: Caller, named: Option<nat>): (r: Option<nat>)
    ensures r.Some? ==> r.value < |offers| && Fits(offers[r.value], caller, named)
    ensures r.Some? ==> forall i :: 0 <= i < r.value ==> !Fits(offers[i], caller, named)
    ensures r.None? ==> forall i :: 0 <= i < |offers| ==> !Fits(offers[i], caller, named)
  {
    if offers == [] then None
    else if Fits(offers[0], caller, named) then Some(0)
    else
      match FirstOffer(offers[1..], caller, named)
      case None => None
      case Some(i) => Some(i + 1)
  }

  predicate Fits(o: Offer, caller: Caller, named: Option<nat>) {
    o.to == caller && (named.None? || named.value == o.handle)
  }

  /** One poll of `claim`: the handle, its name, and whether it is a listener. */
  function Claim(s: Net, caller: Caller, named: Option<nat>, queue: Option<string>, vital: bool)
    : (Net, Poll<(nat, string, bool)>)
  {
    match FirstOffer(s.offers, caller, named)
    case None => (s, if named.Some? then Ready(Err(NoSuchHandle)) else Pending)
    case Some(i) =>
      var o := s.offers[i];
      var s1 := s.(offers := s.offers[..i] + s.offers[i + 1..]);
      var from, to := Slot(o.from, o.handle), Slot(caller, o.handle);
      if from !in s.entries then (s1, Ready(Err(NoSuchHandle))) else
        var e := s.entries[from];
        var s2 := s1.(entries := (s.entries - {from})[to := e]);
        (Adopt(s2, to, queue, vital), Ready(Ok((o.handle, e.name, e.listener))))
  }

  function Owned(entries: map<Slot, Entry>, owner: Caller): set<Slot> {
    set k | k in entries && k.owner == owner
  }

  /** `release`, and `finish` for the root: the state and the report. */
  ghost function Release(s: Net, owner: Caller): (Net, seq<string>) {
    var S := Owned(s.entries, owner);
    (TakeBack(s, S).(offers := WithoutParty(s.offers, owner)), Lost(s.entries, Ascending(S)))
  }

  /** The connector going away: what is live in the table is closed, and its lists go with it. The
      inbox stays with the links. */
  ghost function Dropped(s: Net): Net {
    var t := TakeBack(s, s.entries.Keys);
    t.(offers := [], ended := [], pushes := [], log := t.log.(dropped := true))
  }

  ghost function TakeEnded(s: Net): (Net, seq<Ending>) {
    var s1 := Sweep(s);
    (s1.(ended := []), s1.ended)
  }

  ghost function TakeNotices(s: Net): (Net, seq<Notice>) {
    var s1 := Sweep(s);
    (s1.(pushes := []), s1.pushes)
  }
}
