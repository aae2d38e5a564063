/**
 The connector itself: its fields, and the loops that update them in place. Each
 method is proved against the step of `NetState` it performs, so every run of
 them is a run of `NetSafety`. `transport.close` is the ghost log's `closes`.
 */
module NetConnector {
  import opened Prelude
  import S = NetState
  import opened NetSafety

  /** The table's keys in the order the ordered table is walked. */
  method TableOrder(keys: set<S.Slot>) returns (ks: seq<S.Slot>)
    ensures ks == S.Ascending(keys)
    ensures Distinct(ks)
  {
    ks := [];
    var rest := keys;
    assert Ordered(keys, ks, rest);
    hide S.IsLeast, Ordered;
    while rest != {}
      invariant Ordered(keys, ks, rest)
      decreases |rest|
    {
      var m := Least(rest);
      OneMoreOrdered(keys, ks, rest, m);
      ks := ks + [m];
      rest := rest - {m};
    }
    AllOrdered(keys, ks);
  }

  /** `ks`, then what is left in order, is the whole table in order. */
  ghost predicate Ordered(keys: set<S.Slot>, ks: seq<S.Slot>, rest: set<S.Slot>) {
    ks + S.Ascending(rest) == S.Ascending(keys) && Distinct(ks) && forall k :: k in ks ==> k !in rest
  }

  lemma AllOrdered(keys: set<S.Slot>, ks: seq<S.Slot>)
    requires Ordered(keys, ks, {})
    ensures ks == S.Ascending(keys) && Distinct(ks)
  {
    assert S.Ascending({}) == [];
  }

  lemma OneMoreOrdered(keys: set<S.Slot>, ks: seq<S.Slot>, rest: set<S.Slot>, m: S.Slot)
    requires Ordered(keys, ks, rest) && S.IsLeast(m, rest)
    ensures Ordered(keys, ks + [m], rest - {m})
  {
    LeastIsFirst(rest, m);
    assert m in rest;
    hide S.IsLeast;
    assert ks + ([m] + S.Ascending(rest - {m})) == (ks + [m]) + S.Ascending(rest - {m});
  }

  lemma LeastIsFirst(keys: set<S.Slot>, m: S.Slot)
    requires S.IsLeast(m, keys)
    ensures S.Ascending(keys) == [m] + S.Ascending(keys - {m})
  {
    S.LeastExists(keys);
    var n :| S.IsLeast(n, keys) && S.Ascending(keys) == [n] + S.Ascending(keys - {n});
    assert n == m;
  }

  method Least(keys: set<S.Slot>) returns (m: S.Slot)
    requires keys != {}
    ensures m in keys && S.IsLeast(m, keys)
  {
    m :| m in keys;
    var rest := keys - {m};
    while rest != {}
      invariant rest <= keys && m in keys && m !in rest
      invariant forall k :: k in keys && k !in rest && k != m ==> S.Before(m, k)
      decreases |rest|
    {
      var k :| k in rest;
      if S.Before(k, m) {
        m := k;
      }
      rest := rest - {k};
    }
  }

  lemma SweepStarts(g: S.Net)
    requires Inv(g) && g.events != []
    ensures KeysUnshared(g.entries)
  {
  }

  ghost predicate KeysUnshared(entries: map<S.Slot, S.Entry>) {
    forall a, b :: a in entries && b in entries && entries[a].key == entries[b].key ==> a == b
  }

  predicate SameKeys(a: map<S.Slot, S.Entry>, b: map<S.Slot, S.Entry>) {
    a.Keys == b.Keys && forall k :: k in a ==> b[k].key == a[k].key
  }

  lemma TheOneSlot(entries: map<S.Slot, S.Entry>, ks: seq<S.Slot>, key: nat, i: nat)
    requires KeysUnshared(entries) && Distinct(ks) && i < |ks|
    requires (forall k :: k in ks <==> k in entries) && entries[ks[i]].key == key
    ensures S.SlotOf(entries, key) == Some(ks[i]) && IndexOf(ks, S.SlotOf(entries, key)) == i
  {
    assert ks[i] in ks;
  }

  lemma WaitsUnder(entries: map<S.Slot, S.Entry>, owner: S.Caller, listener: nat)
    ensures forall k :: k in S.WaitingUnder(entries, owner, listener)
              <==> k in entries && k.owner == owner && entries[k].waiting == Some(listener)
  {
  }

  lemma NoneTaken(taken: map<S.Slot, S.Entry>)
    ensures S.ConnsToClose(taken, []) == [] && S.Lost(taken, []) == []
  {
  }

  lemma OneMoreTaken(taken: map<S.Slot, S.Entry>, ks: seq<S.Slot>, i: nat)
    requires i < |ks| && forall k :: k in ks ==> k in taken
    ensures var e := taken[ks[i]];
      && S.ConnsToClose(taken, ks[i..])
         == (if e.gone.None? && e.conn.Some? then [e.conn.value] else []) + S.ConnsToClose(taken, ks[i + 1..])
      && S.Lost(taken, ks[i..])
         == (if e.gone.None? && !e.listener && e.waiting.None? then [e.name] else []) + S.Lost(taken, ks[i + 1..])
  {
    assert ks[i..][0] == ks[i] && ks[i..][1..] == ks[i + 1..];
  }

  /** The first `n` of `ks`. */
  ghost function Among(ks: seq<S.Slot>, n: nat): set<S.Slot>
    requires n <= |ks|
  {
    set k | k in ks[..n]
  }

  lemma AmongNext(ks: seq<S.Slot>, i: nat, w: set<S.Slot>)
    requires Distinct(ks) && i < |ks|
    ensures |w * Among(ks, i + 1)| == |w * Among(ks, i)| + if ks[i] in w then 1 else 0
  {
    assert ks[..i + 1] == ks[..i] + [ks[i]];
    var before, after := w * Among(ks, i), w * Among(ks, i + 1);
    assert ks[i] !in before;
    assert after == if ks[i] in w then before + {ks[i]} else before;
  }

  lemma AmongAll(ks: seq<S.Slot>, w: set<S.Slot>)
    requires forall k :: k in w ==> k in ks
    ensures w * Among(ks, |ks|) == w
  {
    assert ks[..|ks|] == ks;
  }

  lemma Carried<T>(a: seq<T>, x: seq<T>, rest: seq<T>)
    ensures (a + x) + rest == a + (x + rest)
  {
  }

  /** `close`, with what it removes and closes written out. */
  lemma CloseIs(s: S.Net, caller: S.Caller, handle: nat)
    requires S.Mine(s, S.Slot(caller, handle))
    ensures var k := S.Slot(caller, handle);
      var W := S.WaitingUnder(s.entries, caller, handle);
      var e := s.entries[k];
      S.Close(s, caller, handle).0 ==
        s.(entries := s.entries - {k} - W, offers := S.Without(s.offers, caller, handle),
           ended := if e.vital then s.ended + [S.Ending(caller, S.OwnClose, e.listener, e.name)] else s.ended,
           log := s.log.(closes := s.log.closes + S.ConnsToClose(s.entries, S.Ascending(W)) + S.ConnsToClose(s.entries, [k])))
    ensures S.Close(s, caller, handle).1 == Ok(())
  {
    var k := S.Slot(caller, handle);
    var W := S.WaitingUnder(s.entries, caller, handle);
    LeastIsFirst({k}, k);
    assert {k} - {k} == {};
    assert S.Ascending({k}) == [k];
    assert [k][1..] == [];
    assert S.ConnsToClose(s.entries - W, [k]) == S.ConnsToClose(s.entries, [k]);
    assert s.entries - W - {k} == s.entries - {k} - W;
  }

  lemma CloseMisses(s: S.Net, caller: S.Caller, handle: nat)
    requires !S.Mine(s, S.Slot(caller, handle))
    ensures S.Close(s, caller, handle) == (s, Err(S.NoSuchHandle))
  {
  }

  lemma DataKeepsKeys(g: S.Net, k: S.Slot, data: Bytes)
    requires k in g.entries
    ensures SameKeys(g.entries, S.RouteData(g, k, data).entries)
    ensures g.entries[k].gone.Some? ==> S.RouteData(g, k, data) == g
  {
  }

  lemma ClosedKeepsKeys(g: S.Net, k: S.Slot, reason: Option<string>)
    requires k in g.entries
    ensures SameKeys(g.entries, S.RouteClosed(g, k, reason).entries)
    ensures g.entries[k].gone.Some? ==> S.RouteClosed(g, k, reason) == g
  {
  }

  /** Where `hit` is in `ks`, past the end when it is nowhere. */
  ghost function IndexOf(ks: seq<S.Slot>, hit: Option<S.Slot>): (at: nat)
    ensures hit.Some? && hit.value in ks ==> at < |ks| && ks[at] == hit.value
    ensures hit.None? ==> at == |ks|
  {
    if hit.Some? && hit.value in ks then var i :| 0 <= i < |ks| && ks[i] == hit.value; i else |ks|
  }

  class NetConnector {
    var entries: map<S.Slot, S.Entry>
    var nextHandle: nat
    var nextKey: nat
    var events: seq<S.Event>
    var offers: seq<S.Offer>
    var ended: seq<S.Ending>
    var pushes: seq<S.Notice>
    ghost var log: S.Log

    ghost function View(): S.Net
      reads this
    {
      S.Net(entries, nextHandle, nextKey, events, offers, ended, pushes, log)
    }

    ghost predicate Valid()
      reads this
    {
      Inv(View())
    }

    constructor ()
      ensures Valid() && View() == S.Fresh
    {
      hide Inv;
      entries, nextHandle, nextKey := map[], 1, 1;
      events, offers, ended, pushes := [], [], [], [];
      log := S.Fresh.log;
      new;
      InvFresh();
    }

    // ----- reports -----

    method Report(ev: S.Event)
      requires Valid() && Possible(View(), ReportStep(ev))
      modifies this
      ensures Valid() && View() == S.Report(old(View()), ev)
    {
      hide Inv;
      ReportInv(View(), ev);
      events := events + [ev];
    }

    method Arrive(listener: nat, conn: S.Conn, peer: string) returns (key: nat)
      requires Valid() && Possible(View(), ArriveStep(listener, conn, peer))
      modifies this
      ensures Valid() && View() == S.Arrive(old(View()), listener, conn, peer) && key == old(nextKey)
    {
      hide Inv;
      ArriveInv(View(), listener, conn, peer);
      key := nextKey;
      nextKey := nextKey + 1;
      events := events + [S.Accepted(key, listener, conn, peer)];
      log := log.(seen := log.seen + {conn});
    }

    // ----- the sweep -----

    /** `g` is this connector's state once the sweep's own lists are added to it. */
    ghost predicate Mirrors(g: S.Net, p: seq<S.Notice>, e: seq<S.Ending>, c: seq<S.Conn>)
      reads this
    {
      && entries == g.entries && nextHandle == g.nextHandle && nextKey == g.nextKey && offers == g.offers
      && g.pushes == pushes + p && g.ended == ended + e && g.log.closes == log.closes + c
    }

    /** What one data event does to the entry it names. */
    method OnData(k: S.Slot, data: Bytes, p0: seq<S.Notice>, e0: seq<S.Ending>, c0: seq<S.Conn>, ghost g: S.Net)
      returns (p: seq<S.Notice>, e: seq<S.Ending>, c: seq<S.Conn>)
      requires Mirrors(g, p0, e0, c0) && k in entries && entries[k].gone.None?
      modifies this`entries
      ensures Mirrors(S.RouteData(g, k, data), p, e, c)
    {
      p, e, c := p0, e0, c0;
      var x := entries[k];
      if x.queue.Some? {
        p := p + [S.Notice(k.owner, x.queue.value, S.DataPush(k.handle, data))];
      } else if |x.inbound| >= S.RECV_BACKLOG {
        if x.conn.Some? {
          c := c + [x.conn.value];
        }
        if x.vital {
          e := e + [S.Ending(k.owner, S.Overflow, x.listener, x.name)];
        }
        entries := entries[k := x.(gone := Some(Some(S.OVERFLOW)))];
      } else {
        entries := entries[k := x.(inbound := x.inbound + [data])];
      }
    }

    method EachData(key: nat, data: Bytes, p0: seq<S.Notice>, e0: seq<S.Ending>, c0: seq<S.Conn>, ghost g: S.Net)
      returns (p: seq<S.Notice>, e: seq<S.Ending>, c: seq<S.Conn>)
      requires Mirrors(g, p0, e0, c0) && KeysUnshared(g.entries)
      modifies this`entries
      ensures Mirrors(S.Route(g, S.Data(key, data)), p, e, c)
    {
      hide S.RouteData;
      p, e, c := p0, e0, c0;
      var ks := TableOrder(entries.Keys);
      ghost var at := IndexOf(ks, S.SlotOf(g.entries, key));
      for i := 0 to |ks|
        invariant SameKeys(g.entries, entries)
        invariant if at < i then Mirrors(S.RouteData(g, ks[at], data), p, e, c) else Mirrors(g, p, e, c)
      {
        var x := entries[ks[i]];
        if x.key == key {
          TheOneSlot(g.entries, ks, key, i);
          DataKeepsKeys(g, ks[i], data);
          if x.gone.None? {
            p, e, c := OnData(ks[i], data, p, e, c, g);
          }
        }
      }
    }

    /** What one close report does to the entry it names. */
    method OnClosed(k: S.Slot, reason: Option<string>, p0: seq<S.Notice>, e0: seq<S.Ending>, ghost c: seq<S.Conn>, ghost g: S.Net)
      returns (p: seq<S.Notice>, e: seq<S.Ending>)
      requires Mirrors(g, p0, e0, c) && k in entries && entries[k].gone.None?
      modifies this`entries
      ensures Mirrors(S.RouteClosed(g, k, reason), p, e, c)
    {
      p, e := p0, e0;
      var x := entries[k];
      if x.queue.Some? {
        p := p + [S.Notice(k.owner, x.queue.value, S.ClosedPush(k.handle, reason))];
      }
      if x.vital {
        e := e + [S.Ending(k.owner, S.FarEnd, x.listener, x.name)];
      }
      entries := entries[k := x.(gone := Some(reason))];
    }

    method EachClosed(key: nat, reason: Option<string>, p0: seq<S.Notice>, e0: seq<S.Ending>, ghost c: seq<S.Conn>, ghost g: S.Net)
      returns (p: seq<S.Notice>, e: seq<S.Ending>)
      requires Mirrors(g, p0, e0, c) && KeysUnshared(g.entries)
      modifies this`entries
      ensures Mirrors(S.Route(g, S.Closed(key, reason)), p, e, c)
    {
      hide S.RouteClosed;
      p, e := p0, e0;
      var ks := TableOrder(entries.Keys);
      ghost var at := IndexOf(ks, S.SlotOf(g.entries, key));
      for i := 0 to |ks|
        invariant SameKeys(g.entries, entries)
        invariant if at < i then Mirrors(S.RouteClosed(g, ks[at], reason), p, e, c) else Mirrors(g, p, e, c)
      {
        var x := entries[ks[i]];
        if x.key == key {
          TheOneSlot(g.entries, ks, key, i);
          ClosedKeepsKeys(g, ks[i], reason);
          if x.gone.None? {
            p, e := OnClosed(ks[i], reason, p, e, c, g);
          }
        }
      }
    }

    /** How many connections wait under `owner`'s listener. */
    method Waiting(owner: S.Caller, listener: nat) returns (n: nat)
      ensures n == |S.WaitingUnder(entries, owner, listener)|
    {
      n := 0;
      var ks := TableOrder(entries.Keys);
      ghost var w := S.WaitingUnder(entries, owner, listener);
      assert w * Among(ks, 0) == {};
      WaitsUnder(entries, owner, listener);
      hide S.WaitingUnder, Among, Distinct;
      for i := 0 to |ks|
        invariant n == |w * Among(ks, i)|
      {
        AmongNext(ks, i, w);
        assert ks[i] in ks;
        if ks[i].owner == owner && entries[ks[i]].waiting == Some(listener) {
          n := n + 1;
        }
      }
      AmongAll(ks, w);
    }

    /** The listener an arrival is for, while it still listens. */
    method Listening(key: nat) returns (taken: Option<S.Slot>)
      requires KeysUnshared(entries)
      ensures var hit := S.SlotOf(entries, key);
        taken == if hit.Some? && entries[hit.value].listener && entries[hit.value].gone.None? then hit else None
    {
      taken := None;
      var ks := TableOrder(entries.Keys);
      ghost var at := IndexOf(ks, S.SlotOf(entries, key));
      for i := 0 to |ks|
        invariant taken == if at < i && entries[ks[at]].listener && entries[ks[at]].gone.None? then Some(ks[at]) else None
      {
        var x := entries[ks[i]];
        if x.key == key {
          TheOneSlot(entries, ks, key, i);
          if x.listener && x.gone.None? {
            taken := Some(ks[i]);
          }
        }
      }
    }

    method EachAccepted(ev: S.Event, p0: seq<S.Notice>, ghost e: seq<S.Ending>, c0: seq<S.Conn>, ghost g: S.Net)
      returns (p: seq<S.Notice>, c: seq<S.Conn>)
      requires Mirrors(g, p0, e, c0) && KeysUnshared(g.entries) && ev.Accepted?
      modifies this`entries, this`nextHandle
      ensures Mirrors(S.Route(g, ev), p, e, c)
    {
      p, c := p0, c0;
      var taken := Listening(ev.listener);
      if taken.None? {
        c := c + [ev.conn];
        return;
      }
      var l := taken.value;
      var queue := entries[l].queue;
      if queue.None? {
        var n := Waiting(l.owner, l.handle);
        if n >= S.ACCEPT_BACKLOG {
          c := c + [ev.conn];
          return;
        }
      }
      var handle := nextHandle;
      nextHandle := nextHandle + 1;
      entries := entries[S.Slot(l.owner, handle) :=
        S.Entry(ev.key, Some(ev.conn), false, ev.peer, queue, false, [], if queue.None? then Some(l.handle) else None, None)];
      if queue.Some? {
        p := p + [S.Notice(l.owner, queue.value, S.AcceptedPush(l.handle, handle, ev.peer))];
      }
    }

    /** Read what the transport said and put each thing where it belongs. */
    method Sweep()
      requires Valid()
      modifies this
      ensures Valid() && View() == S.Sweep(old(View()))
    {
      hide Inv;
      SweepInv(View());
      var drained := events;
      events := [];
      var close: seq<S.Conn>, p: seq<S.Notice>, e: seq<S.Ending> := [], [], [];
      ghost var g := old(View());
      for i := 0 to |drained|
        invariant Inv(g) && g.events == drained[i..] && S.Sweep(g) == S.Sweep(old(View()))
        invariant Mirrors(g, p, e, close) && events == []
        invariant log == old(log) && pushes == old(pushes) && ended == old(ended)
      {
        ghost var u := g.(events := g.events[1..]);
        SweepStarts(g);
        match drained[i] {
          case Data(key, data) => p, e, close := EachData(key, data, p, e, close, u);
          case Closed(key, reason) => p, e := EachClosed(key, reason, p, e, close, u);
          case Accepted(_, _, _, _) => p, close := EachAccepted(drained[i], p, e, close, u);
        }
        RouteInv(g);
        S.RouteKeepsEvents(u, drained[i]);
        g := S.RouteHead(g);
      }
      pushes := pushes + p;
      ended := ended + e;
      log := g.log;
    }

    // ----- the calls -----

    method BeginOpen(caller: S.Caller, address: string, queue: Option<string>, vital: bool) returns (handle: nat)
      requires Valid()
      modifies this
      ensures Valid() && View() == S.BeginOpen(old(View()), caller, address, queue, vital) && handle == old(nextHandle)
    {
      hide Inv;
      NextInv(View(), OpenStep(caller, address, queue, vital));
      handle := Insert(caller, S.Entry(nextKey, None, false, address, queue, vital, [], None, None));
      nextKey := nextKey + 1;
    }

    method BeginListen(caller: S.Caller, address: string, queue: Option<string>) returns (handle: nat)
      requires Valid()
      modifies this
      ensures Valid() && View() == S.BeginListen(old(View()), caller, address, queue) && handle == old(nextHandle)
    {
      hide Inv;
      NextInv(View(), ListenStep(caller, address, queue));
      handle := Insert(caller, S.Entry(nextKey, None, true, address, queue, false, [], None, None));
      nextKey := nextKey + 1;
    }

    method Insert(caller: S.Caller, e: S.Entry) returns (handle: nat)
      requires e.conn.None?
      modifies this`entries, this`nextHandle, this`log
      ensures handle == old(nextHandle)
      ensures View() == S.Insert(old(View()), caller, e).(log := S.Insert(old(View()), caller, e).log.(opening := old(log.opening) + {S.Slot(caller, handle)}))
    {
      handle := nextHandle;
      nextHandle := nextHandle + 1;
      entries := entries[S.Slot(caller, handle) := e];
      log := log.(keyOf := log.keyOf[handle := e.key], opening := log.opening + {S.Slot(caller, handle)});
    }

    method Settle(caller: S.Caller, handle: nat, answer: Result<S.Conn, string>) returns (r: Result<nat, S.CallError>)
      requires Valid() && Possible(View(), SettleStep(caller, handle, answer))
      modifies this
      ensures Valid() && View() == S.Settle(old(View()), caller, handle, answer)
      ensures r == if answer.Ok? then Ok(handle) else Err(S.Refused(answer.error))
    {
      hide Inv;
      NextInv(View(), SettleStep(caller, handle, answer));
      var k := S.Slot(caller, handle);
      match answer {
        case Ok(conn) =>
          log := log.(seen := log.seen + {conn}, opening := log.opening - {k});
          if k in entries {
            entries := entries[k := entries[k].(conn := Some(conn))];
            log := log.(holder := log.holder[conn := handle]);
          } else {
            log := log.(closes := log.closes + [conn]);
          }
          r := Ok(handle);
        case Err(why) =>
          log := log.(opening := log.opening - {k}, refused := if k in entries then log.refused + {handle} else log.refused);
          entries := entries - {k};
          r := Err(S.Refused(why));
      }
    }

    method Oldest(owner: S.Caller, listener: nat) returns (oldest: Option<nat>)
      ensures oldest == S.OldestWaiting(View(), owner, listener)
    {
      oldest := None;
      var ks := TableOrder(entries.Keys);
      S.AscendingInOrder(entries.Keys);
      ghost var w := S.WaitingUnder(entries, owner, listener);
      WaitsUnder(entries, owner, listener);
      hide S.WaitingUnder, Distinct;
      for i := 0 to |ks|
        invariant oldest.None? ==> forall j :: 0 <= j < i ==> ks[j] !in w
        invariant oldest.Some? ==> S.IsLeast(S.Slot(owner, oldest.value), w)
      {
        if ks[i].owner == owner && entries[ks[i]].waiting == Some(listener) && oldest.None? {
          oldest := Some(ks[i].handle);
          forall k | k in w && k != ks[i]
            ensures S.Before(ks[i], k)
          {
            assert k in ks;
            var j :| 0 <= j < |ks| && ks[j] == k;
          }
        }
      }
      if oldest.Some? {
        LeastIsFirst(w, S.Slot(owner, oldest.value));
      } else {
        assert forall k :: k in w ==> k in ks;
        assert forall k :: k in ks ==> k !in w;
        assert w == {};
      }
    }

    /** The entry's new declarations, and the flush they call for. */
    method Adopt(k: S.Slot, queue: Option<string>, vital: bool)
      requires Valid() && k in entries
      modifies this`entries, this`pushes, this`log
      ensures Valid() && View() == S.Adopt(old(View()), k, queue, vital)
    {
      hide Inv;
      AdoptInv(View(), k, queue, vital);
      var e := entries[k].(waiting := None, vital := vital, queue := queue);
      if queue.None? {
        entries := entries[k := e];
      } else {
        pushes := pushes + S.Flush(e, k);
        log := log.(handed := log.handed + S.Deliveries(k, queue, e.inbound));
        entries := entries[k := e.(inbound := [])];
      }
    }

    method Accept(caller: S.Caller, listener: nat, queue: Option<string>, vital: bool) returns (r: S.Poll<(nat, string)>)
      requires Valid()
      modifies this
      ensures Valid() && (View(), r) == S.Accept(old(View()), caller, listener, queue, vital)
    {
      hide Inv;
      NextInv(View(), AcceptStep(caller, listener, queue, vital));
      Sweep();
      var l := S.Slot(caller, listener);
      if l !in entries || entries[l].waiting.Some? {
        return S.Ready(Err(S.NoSuchHandle));
      }
      if !entries[l].listener {
        return S.Ready(Err(S.NotAListener));
      }
      if entries[l].queue.Some? {
        return S.Ready(Err(S.PushesTo(entries[l].queue.value)));
      }
      var oldest := Oldest(caller, listener);
      if oldest.Some? {
        var k := S.Slot(caller, oldest.value);
        if k !in entries {
          return S.Ready(Err(S.NoSuchHandle));
        }
        var peer := entries[k].name;
        Adopt(k, queue, vital);
        return S.Ready(Ok((oldest.value, peer)));
      }
      if entries[l].gone.Some? {
        return S.Ready(Err(S.IsClosed(entries[l].gone.value)));
      }
      return S.Pending;
    }

    method Recv(caller: S.Caller, handle: nat) returns (r: S.Poll<S.Received>)
      requires Valid()
      modifies this
      ensures Valid() && (View(), r) == S.Recv(old(View()), caller, handle)
    {
      hide Inv;
      NextInv(View(), RecvStep(caller, handle));
      Sweep();
      var k := S.Slot(caller, handle);
      if k !in entries || entries[k].waiting.Some? {
        return S.Ready(Err(S.NoSuchHandle));
      }
      var e := entries[k];
      if e.listener {
        return S.Ready(Err(S.NotAConnection));
      }
      if e.queue.Some? {
        return S.Ready(Err(S.PushesTo(e.queue.value)));
      }
      if e.inbound != [] {
        entries := entries[k := e.(inbound := e.inbound[1..])];
        log := log.(handed := log.handed + [S.Delivery(handle, e.inbound[0], caller, None)]);
        return S.Ready(Ok(S.Got(e.inbound[0])));
      }
      if e.gone.Some? {
        return S.Ready(Ok(S.Eof(e.gone.value)));
      }
      return S.Pending;
    }

    /** Close what was taken out of the table; say which connections were cut. */
    method CloseAll(taken: map<S.Slot, S.Entry>, ks: seq<S.Slot>) returns (lost: seq<string>)
      requires forall k :: k in ks ==> k in taken
      modifies this`log
      ensures log == old(log).(closes := old(log.closes) + S.ConnsToClose(taken, ks))
      ensures lost == S.Lost(taken, ks)
    {
      hide S.ConnsToClose, S.Lost;
      lost := [];
      assert ks[0..] == ks;
      for i := 0 to |ks|
        invariant log == old(log).(closes := log.closes)
        invariant log.closes + S.ConnsToClose(taken, ks[i..]) == old(log.closes) + S.ConnsToClose(taken, ks)
        invariant lost + S.Lost(taken, ks[i..]) == S.Lost(taken, ks)
      {
        var e := taken[ks[i]];
        OneMoreTaken(taken, ks, i);
        Carried(log.closes, if e.gone.None? && e.conn.Some? then [e.conn.value] else [], S.ConnsToClose(taken, ks[i + 1..]));
        Carried(lost, if e.gone.None? && !e.listener && e.waiting.None? then [e.name] else [], S.Lost(taken, ks[i + 1..]));
        if e.gone.Some? {
          continue;
        }
        if e.conn.Some? {
          log := log.(closes := log.closes + [e.conn.value]);
        }
        if !e.listener && e.waiting.None? {
          lost := lost + [e.name];
        }
      }
      NoneTaken(taken);
      assert ks[|ks|..] == [];
    }

    /** A listener's waiting connections go with it. */
    method CloseWaiting(table: map<S.Slot, S.Entry>, caller: S.Caller, handle: nat)
      modifies this`entries, this`log
      ensures var under := S.WaitingUnder(table, caller, handle);
        && entries == old(entries) - under
        && log == old(log).(closes := old(log.closes) + S.ConnsToClose(table, S.Ascending(under)))
    {
      var under := S.WaitingUnder(table, caller, handle);
      var waiting := TableOrder(under);
      entries := entries - under;
      var _ := CloseAll(table, waiting);
    }

    method Close(caller: S.Caller, handle: nat) returns (r: Result<(), S.CallError>)
      requires Valid()
      modifies this
      ensures Valid() && (View(), r) == S.Close(old(View()), caller, handle)
    {
      hide Inv;
      NextInv(View(), CloseStep(caller, handle));
      hide S.Close, S.TakeBack, S.ConnsToClose, S.Lost, S.WaitingUnder, S.Without;
      WaitsUnder(entries, caller, handle);
      var k := S.Slot(caller, handle);
      if k !in entries || entries[k].waiting.Some? {
        CloseMisses(View(), caller, handle);
        return Err(S.NoSuchHandle);
      }
      CloseIs(View(), caller, handle);
      var entry := entries[k];
      var table := entries;
      entries := entries - {k};
      CloseWaiting(table, caller, handle);
      offers := S.Without(offers, caller, handle);
      if entry.vital {
        ended := ended + [S.Ending(caller, S.OwnClose, entry.listener, entry.name)];
      }
      var _ := CloseAll(table, [k]);
      r := Ok(());
    }

    method Transfer(caller: S.Caller, handle: nat, to: S.Caller) returns (r: Result<(), S.CallError>)
      requires Valid()
      modifies this
      ensures Valid() && (View(), r) == S.Transfer(old(View()), caller, handle, to)
    {
      hide Inv;
      TransferInv(View(), caller, handle, to);
      if to == caller {
        return Err(S.TransferToSelf);
      }
      var k := S.Slot(caller, handle);
      if k !in entries || entries[k].waiting.Some? {
        return Err(S.NoSuchHandle);
      }
      offers := S.Without(offers, caller, handle) + [S.Offer(caller, to, handle)];
      return Ok(());
    }

    method Claim(caller: S.Caller, named: Option<nat>, queue: Option<string>, vital: bool) returns (r: S.Poll<(nat, string, bool)>)
      requires Valid()
      modifies this
      ensures Valid() && (View(), r) == S.Claim(old(View()), caller, named, queue, vital)
    {
      hide Inv;
      ClaimInv(View(), caller, named, queue, vital);
      var at := S.FirstOffer(offers, caller, named);
      if at.None? {
        return if named.Some? then S.Ready(Err(S.NoSuchHandle)) else S.Pending;
      }
      var o := offers[at.value];
      offers := offers[..at.value] + offers[at.value + 1..];
      var from, to := S.Slot(o.from, o.handle), S.Slot(caller, o.handle);
      if from !in entries {
        return S.Ready(Err(S.NoSuchHandle));
      }
      var e := entries[from];
      entries := (entries - {from})[to := e];
      MovedInv(old(View()), View(), at.value, to);
      Adopt(to, queue, vital);
      return S.Ready(Ok((o.handle, e.name, e.listener)));
    }

    /** The owner is gone: everything it held closes. `finish` is the root's. */
    method Release(owner: S.Caller) returns (report: seq<string>)
      requires Valid()
      modifies this
      ensures Valid() && (View(), report) == S.Release(old(View()), owner)
    {
      hide Inv;
      ReleaseInv(View(), owner);
      offers := S.WithoutParty(offers, owner);
      var table := entries;
      var owned := set k | k in table && k.owner == owner;
      var ks := TableOrder(owned);
      entries := entries - owned;
      report := CloseAll(table, ks);
    }

    /** The connector going away: whatever is live in the table is closed, whoever held it. */
    method Drop()
      requires Valid()
      modifies this
      ensures Valid() && View() == S.Dropped(old(View())) && entries == map[]
    {
      hide Inv;
      DropInv(View());
      var table := entries;
      var ks := TableOrder(table.Keys);
      entries := map[];
      assert table - table.Keys == map[];
      var _ := CloseAll(table, ks);
      offers, ended, pushes := [], [], [];
      log := log.(dropped := true);
    }

    method Ended() returns (r: seq<S.Ending>)
      requires Valid()
      modifies this
      ensures Valid() && (View(), r) == S.TakeEnded(old(View()))
    {
      hide Inv;
      FetchInv(View());
      Sweep();
      r := ended;
      ended := [];
    }

    method Notices() returns (r: seq<S.Notice>)
      requires Valid()
      modifies this
      ensures Valid() && (View(), r) == S.TakeNotices(old(View()))
    {
      hide Inv;
      FetchInv(View());
      Sweep();
      r := pushes;
      pushes := [];
    }
  }
}
