/** What each call answers, and what it leaves in the table, read off the entries. */
module NetAnswers {
  import opened Prelude
  import opened NetState
  import opened NetSafety
  import opened NetTheorems
  import opened NetPromise

  // ----- arrivals -----

  /**
   An arrival whose listener is there, live and has room becomes the listener's
   owner's: waiting under it, or announced to its queue. Any other is closed at once
   and leaves no trace.
   */
  lemma {:induction false} ArrivalTaken(s: Net)
    requires s.events != [] && s.events[0].Accepted?
    ensures var ev, t := s.events[0], RouteHead(s);
      var l := SlotOf(s.entries, ev.listener);
      if l.Some? && s.entries[l.value].listener && s.entries[l.value].gone.None?
         && (s.entries[l.value].queue.Some? || |WaitingUnder(s.entries, l.value.owner, l.value.handle)| < 64)
      then
        var q := s.entries[l.value].queue;
        && t.entries == s.entries[Slot(l.value.owner, s.nextHandle) :=
             Entry(ev.key, Some(ev.conn), false, ev.peer, q, false, [], if q.None? then Some(l.value.handle) else None, None)]
        && t.nextHandle == s.nextHandle + 1 && t.log.closes == s.log.closes
        && t.pushes == s.pushes
             + if q.Some? then [Notice(l.value.owner, q.value, AcceptedPush(l.value.handle, s.nextHandle, ev.peer))] else []
      else
        && t.entries == s.entries && t.nextHandle == s.nextHandle && t.pushes == s.pushes
        && t.log.closes == s.log.closes + [ev.conn]
  {
    assert s.pushes + [] == s.pushes;
    var u := s.(events := s.events[1..]);
    var l := SlotOf(s.entries, s.events[0].listener);
    if l.Some? {
      hide RouteAccepted;
      RoomOrNot(u, l.value, s.events[0]);
    }
  }

  lemma RoomOrNot(s: Net, l: Slot, ev: Event)
    requires l in s.entries && ev.Accepted?
    ensures var t, e := RouteAccepted(s, l, ev), s.entries[l];
      && t.log.processed == s.log.processed
      && if e.listener && e.gone.None? && (e.queue.Some? || |WaitingUnder(s.entries, l.owner, l.handle)| < 64)
      then
        && t.entries == s.entries[Slot(l.owner, s.nextHandle) :=
             Entry(ev.key, Some(ev.conn), false, ev.peer, e.queue, false, [], if e.queue.None? then Some(l.handle) else None, None)]
        && t.nextHandle == s.nextHandle + 1 && t.log.closes == s.log.closes
        && t.pushes == s.pushes + if e.queue.Some? then [Notice(l.owner, e.queue.value, AcceptedPush(l.handle, s.nextHandle, ev.peer))] else []
      else
        && t.entries == s.entries && t.nextHandle == s.nextHandle && t.pushes == s.pushes
        && t.log.closes == s.log.closes + [ev.conn]
  {
    hide WaitingUnder;
  }

  // ----- opening -----

  /** What `open` and `listen` declare is what the new entry says, under the number answered. */
  lemma OpenDeclares(s: Net, caller: Caller, address: string, queue: Option<string>, vital: bool)
    ensures var t, k := BeginOpen(s, caller, address, queue, vital), Slot(caller, s.nextHandle);
      && t.entries == s.entries[k := Entry(s.nextKey, None, false, address, queue, vital, [], None, None)]
      && t.nextHandle == s.nextHandle + 1 && t.nextKey == s.nextKey + 1 && k in t.log.opening
    ensures var t, k := BeginListen(s, caller, address, queue), Slot(caller, s.nextHandle);
      && t.entries == s.entries[k := Entry(s.nextKey, None, true, address, queue, false, [], None, None)]
      && t.nextHandle == s.nextHandle + 1 && t.nextKey == s.nextKey + 1 && k in t.log.opening
  {
  }

  /** The transport's answer is put into the entry; a refusal takes the entry away; with nobody to give it to, the Conn is closed. */
  lemma SettleFills(s: Net, caller: Caller, handle: nat, answer: Result<Conn, string>)
    ensures var t, k := Settle(s, caller, handle, answer), Slot(caller, handle);
      && (forall j :: j != k ==> (j in t.entries <==> j in s.entries) && (j in s.entries ==> t.entries[j] == s.entries[j]))
      && (k in t.entries <==> k in s.entries && answer.Ok?)
      && (k in t.entries ==> t.entries[k] == s.entries[k].(conn := Some(answer.value)))
      && t.log.closes == s.log.closes + if answer.Ok? && k !in s.entries then [answer.value] else []
  {
    assert s.log.closes + [] == s.log.closes;
  }

  // ----- answers -----

  /** One of the caller's own, and answered to it: what waits to be accepted is not. */
  predicate Owns(s: Net, k: Slot) {
    k in s.entries && s.entries[k].waiting.None?
  }

  /** The oldest unread message, then the end; what is another's, a listener or pushed is refused. */
  lemma {:induction false} RecvAnswers(s: Net, caller: Caller, handle: nat)
    ensures var u, k := Sweep(s), Slot(caller, handle);
      var (t, r) := Recv(s, caller, handle);
      && (r == Ready(Err(NoSuchHandle)) <==> !Owns(u, k))
      && (r == Ready(Err(NotAConnection)) <==> Owns(u, k) && u.entries[k].listener)
      && (forall q :: r == Ready(Err(PushesTo(q))) <==> Owns(u, k) && !u.entries[k].listener && u.entries[k].queue == Some(q))
      && (forall data :: r == Ready(Ok(Got(data))) <==> Receives(u, k) && u.entries[k].inbound != [] && data == u.entries[k].inbound[0])
      && (forall why :: r == Ready(Ok(Eof(why))) <==> Receives(u, k) && u.entries[k].inbound == [] && u.entries[k].gone == Some(why))
      && (r == Pending <==> Receives(u, k) && u.entries[k].inbound == [] && u.entries[k].gone.None?)
      && (if r.Ready? && r.answer.Ok? && r.answer.value.Got?
          then t.entries == u.entries[k := u.entries[k].(inbound := u.entries[k].inbound[1..])]
          else t.entries == u.entries)
  {
    hide Sweep;
  }

  predicate Receives(s: Net, k: Slot) {
    Owns(s, k) && !s.entries[k].listener && s.entries[k].queue.None?
  }

  predicate Accepts(s: Net, k: Slot) {
    Owns(s, k) && s.entries[k].listener && s.entries[k].queue.None?
  }

  /** A connection waits to be accepted under the caller's listener. */
  predicate SomeWait(s: Net, k: Slot) {
    exists j :: j in s.entries && j.owner == k.owner && s.entries[j].waiting == Some(k.handle)
  }

  lemma {:induction false} AcceptAnswers(s: Net, caller: Caller, listener: nat, queue: Option<string>, vital: bool)
    ensures var u, k := Sweep(s), Slot(caller, listener);
      var (t, r) := Accept(s, caller, listener, queue, vital);
      && (r == Ready(Err(NoSuchHandle)) <==> !Owns(u, k))
      && (r == Ready(Err(NotAListener)) <==> Owns(u, k) && !u.entries[k].listener)
      && (forall q :: r == Ready(Err(PushesTo(q))) <==> Owns(u, k) && u.entries[k].listener && u.entries[k].queue == Some(q))
      && ((r.Ready? && r.answer.Ok?) <==> Accepts(u, k) && SomeWait(u, k))
      && (forall why :: r == Ready(Err(IsClosed(why))) <==> Accepts(u, k) && !SomeWait(u, k) && u.entries[k].gone == Some(why))
      && (r == Pending <==> Accepts(u, k) && !SomeWait(u, k) && u.entries[k].gone.None?)
      && (!(r.Ready? && r.answer.Ok?) ==> t == u)
  {
    hide Sweep, Adopt;
    OldestIsSome(Sweep(s), caller, listener);
  }

  lemma OldestIsSome(s: Net, caller: Caller, listener: nat)
    ensures OldestWaiting(s, caller, listener).Some? <==> SomeWait(s, Slot(caller, listener))
    ensures OldestWaiting(s, caller, listener).Some? ==> Slot(caller, OldestWaiting(s, caller, listener).value) in s.entries
  {
    var w := WaitingUnder(s.entries, caller, listener);
    assert forall k :: k in w <==> k in Ascending(w);
    assert forall k :: k in w <==> k in s.entries && k.owner == caller && s.entries[k].waiting == Some(listener);
    hide WaitingUnder;
    if Ascending(w) != [] {
      assert Ascending(w)[0] in w;
    }
  }

  /** A send goes out on the Conn of the caller's own live, answered connection, and not over the limit. */
  lemma SendAnswers(s: Net, caller: Caller, handle: nat, data: Bytes)
    ensures var k, r := Slot(caller, handle), SendOn(s, caller, handle, data);
      && (r == Err(TooLong) <==> |data| > 1_048_576)
      && (|data| <= 1_048_576 ==>
           && (r == Err(NoSuchHandle) <==> !Owns(s, k))
           && (r == Err(NotAConnection) <==> Owns(s, k) && s.entries[k].listener)
           && (forall why :: r == Err(IsClosed(why)) <==> Owns(s, k) && !s.entries[k].listener && s.entries[k].gone == Some(why))
           && (r == Err(StillOpening) <==> Owns(s, k) && !s.entries[k].listener && s.entries[k].gone.None? && s.entries[k].conn.None?)
           && (forall c :: r == Ok(c) <==> Owns(s, k) && !s.entries[k].listener && s.entries[k].gone.None? && s.entries[k].conn == Some(c)))
  {
  }

  /** An entry that was live with this Conn has left the table. */
  ghost predicate LeftLive(s: Net, t: Net, c: Conn) {
    exists j :: j in s.entries && j !in t.entries && s.entries[j].gone.None? && s.entries[j].conn == Some(c)
  }

  /** A close takes the caller's own entry, what waits under it, and its offer of it; what of that is live is closed. */
  lemma {:induction false} CloseTakes(s: Net, caller: Caller, handle: nat)
    ensures var k := Slot(caller, handle);
      var (t, r) := Close(s, caller, handle);
      if !Owns(s, k) then r == Err(NoSuchHandle) && t == s else
        && r == Ok(())
        && (forall j :: j in t.entries <==> j in s.entries && j != k && !(j.owner == caller && s.entries[j].waiting == Some(handle)))
        && (forall j :: j in t.entries ==> t.entries[j] == s.entries[j])
        && (forall o :: o in t.offers <==> o in s.offers && !(o.from == caller && o.handle == handle))
        && (forall c :: c in t.log.closes <==> c in s.log.closes || LeftLive(s, t, c))
  {
    var k := Slot(caller, handle);
    if Mine(s, k) {
      WithoutExact(s.offers, caller, handle);
      CloseTable(s, caller, handle);
      hide Close;
      var t := Close(s, caller, handle).0;
      forall c
        ensures c in t.log.closes <==> c in s.log.closes || LeftLive(s, t, c)
      {
        CloseCloses(s, caller, handle, c);
        var S := WaitingUnder(s.entries, caller, handle) + {k};
        assert forall j :: j in S && Holding(s, j, c) ==> j in s.entries && j !in t.entries;
        assert forall j :: j in s.entries && j !in t.entries && s.entries[j].gone.None? && s.entries[j].conn == Some(c) ==> j in S && Holding(s, j, c);
      }
    }
  }

  lemma CloseTable(s: Net, caller: Caller, handle: nat)
    requires Mine(s, Slot(caller, handle))
    ensures var k := Slot(caller, handle);
      var (t, r) := Close(s, caller, handle);
      r == Ok(()) && t.entries == s.entries - WaitingUnder(s.entries, caller, handle) - {k} && t.offers == Without(s.offers, caller, handle)
  {
  }

  // ----- handing over -----

  /** A transfer of the caller's own handle to another puts the one offer of it last; the others keep their order. */
  lemma {:induction false} TransferOffers(s: Net, caller: Caller, handle: nat, to: Caller)
    ensures var (t, r) := Transfer(s, caller, handle, to);
      && (r == Err(TransferToSelf) <==> to == caller)
      && (r == Err(NoSuchHandle) <==> to != caller && !Owns(s, Slot(caller, handle)))
      && (r == Ok(()) <==> to != caller && Owns(s, Slot(caller, handle)))
      && if r.Err? then t == s else
           && t == s.(offers := t.offers) && t.offers != [] && t.offers[|t.offers| - 1] == Offer(caller, to, handle)
           && Kept(s.offers, t.offers[..|t.offers| - 1], caller, handle)
  {
    if Transfer(s, caller, handle, to).1.Ok? {
      WithoutKeeps(s.offers, caller, handle);
      var t := Transfer(s, caller, handle, to).0;
      assert t.offers[..|t.offers| - 1] == Without(s.offers, caller, handle);
    }
  }

  /** `kept` is `offers` without those of one handle by its holder, in order. */
  ghost predicate Kept(offers: seq<Offer>, kept: seq<Offer>, from: Caller, handle: nat)
    decreases |offers|
  {
    if offers == [] then kept == []
    else if offers[0].from == from && offers[0].handle == handle then Kept(offers[1..], kept, from, handle)
    else kept != [] && kept[0] == offers[0] && Kept(offers[1..], kept[1..], from, handle)
  }

  lemma WithoutStep(offers: seq<Offer>, from: Caller, handle: nat)
    requires offers != []
    ensures var rest := Without(offers[1..], from, handle);
      Without(offers, from, handle)
      == if offers[0].from == from && offers[0].handle == handle then rest else [offers[0]] + rest
  {
  }

  lemma {:induction false} WithoutKeeps(offers: seq<Offer>, from: Caller, handle: nat)
    ensures Kept(offers, Without(offers, from, handle), from, handle)
  {
    if offers != [] {
      WithoutStep(offers, from, handle);
      WithoutKeeps(offers[1..], from, handle);
      hide Without;
    }
  }

  /** Of what is offered to it, a claimant takes the first that fits what it names; with nothing that fits it waits, or is refused if it named a number. */
  lemma {:induction false} ClaimAnswers(s: Net, caller: Caller, named: Option<nat>, queue: Option<string>, vital: bool)
    ensures var (t, r) := Claim(s, caller, named, queue, vital);
      && (r == Pending <==> named.None? && forall o :: o in s.offers ==> o.to != caller)
      && (r == Pending ==> t == s)
      && (named.Some? && (forall o :: o in s.offers ==> !(o.to == caller && o.handle == named.value)) ==> r == Ready(Err(NoSuchHandle)) && t == s)
      && (forall i :: FirstTo(s.offers, caller, named, i) ==>
            && t.offers == s.offers[..i] + s.offers[i + 1..]
            && (r.Ready? && r.answer.Ok? <==> Slot(s.offers[i].from, s.offers[i].handle) in s.entries)
            && (r.Ready? && r.answer.Ok? ==> r.answer.value.0 == s.offers[i].handle))
  {
    var i := FirstOffer(s.offers, caller, named);
    FirstOfferIs(s.offers, caller, named);
    ClaimBranches(s, caller, named, queue, vital);
    hide Claim, FirstOffer;
    if i.Some? {
      assert s.offers[i.value] in s.offers;
      assert FirstTo(s.offers, caller, named, i.value);
    }
  }

  lemma FirstOfferIs(offers: seq<Offer>, caller: Caller, named: Option<nat>)
    ensures var i := FirstOffer(offers, caller, named);
      && (i.Some? ==> FirstTo(offers, caller, named, i.value)) && (forall j :: FirstTo(offers, caller, named, j) ==> i == Some(j))
      && (i.None? ==> forall o :: o in offers ==> !Fits(o, caller, named))
  {
    var i := FirstOffer(offers, caller, named);
    forall j | FirstTo(offers, caller, named, j)
      ensures i == Some(j)
    {
      assert Fits(offers[j], caller, named);
    }
  }

  lemma ClaimBranches(s: Net, caller: Caller, named: Option<nat>, queue: Option<string>, vital: bool)
    ensures var i := FirstOffer(s.offers, caller, named);
      var (t, r) := Claim(s, caller, named, queue, vital);
      if i.None? then t == s && r == (if named.Some? then Ready(Err(NoSuchHandle)) else Pending)
      else
        && t.offers == s.offers[..i.value] + s.offers[i.value + 1..] && r.Ready?
        && (r.answer.Ok? <==> Slot(s.offers[i.value].from, s.offers[i.value].handle) in s.entries)
        && (r.answer.Ok? ==> r.answer.value.0 == s.offers[i.value].handle)
  {
  }

  /** The first offer to `caller` of what it names. */
  ghost predicate FirstTo(offers: seq<Offer>, caller: Caller, named: Option<nat>, i: int) {
    && 0 <= i < |offers| && offers[i].to == caller && (named.None? || offers[i].handle == named.value)
    && forall j :: 0 <= j < i ==> !(offers[j].to == caller && (named.None? || offers[j].handle == named.value))
  }

  /** What is transferred can be claimed by its addressee, by its number; it gets the entry under that number. */
  lemma {:induction false} TransferThenClaim(s: Net, caller: Caller, handle: nat, to: Caller, queue: Option<string>, vital: bool)
    requires Reachable(s) && Transfer(s, caller, handle, to).1.Ok?
    ensures var t := Transfer(s, caller, handle, to).0;
      var e := s.entries[Slot(caller, handle)];
      var (u, r) := Claim(t, to, Some(handle), queue, vital);
      && r == Ready(Ok((handle, e.name, e.listener)))
      && Slot(to, handle) in u.entries && Slot(caller, handle) !in u.entries
      && u.entries[Slot(to, handle)].conn == e.conn && u.entries[Slot(to, handle)].key == e.key
      && forall k: Slot :: k.handle != handle ==> (k in u.entries <==> k in s.entries) && (k in s.entries ==> u.entries[k] == s.entries[k])
  {
    hide Inv, Reachable, Transfer, Adopt, Claim, FirstOffer;
    ReachableInv(s);
    var t := Transfer(s, caller, handle, to).0;
    var i := OfferFound(s, caller, handle, to);
    ClaimFirst(t, to, Some(handle), queue, vital);
    Adopted(t.(offers := t.offers[..i] + t.offers[i + 1..],
               entries := (t.entries - {Slot(caller, handle)})[Slot(to, handle) := t.entries[Slot(caller, handle)]]), Slot(to, handle), queue, vital);
  }

  lemma OfferFound(s: Net, caller: Caller, handle: nat, to: Caller) returns (i: nat)
    requires Inv(s) && Transfer(s, caller, handle, to).1.Ok?
    ensures var t := Transfer(s, caller, handle, to).0;
      && t.entries == s.entries && FirstOffer(t.offers, to, Some(handle)) == Some(i) && i < |t.offers|
      && t.offers[i] == Offer(caller, to, handle) && Slot(caller, handle) in s.entries && caller != to
  {
    OnlyOffer(s, caller, handle, to);
    assert caller != to;
    hide Inv, Transfer;
    var t := Transfer(s, caller, handle, to).0;
    assert Fits(t.offers[|t.offers| - 1], to, Some(handle));
    i := FirstOffer(t.offers, to, Some(handle)).value;
    assert t.offers[i] in t.offers;
  }

  lemma ClaimFirst(s: Net, caller: Caller, named: Option<nat>, queue: Option<string>, vital: bool)
    requires var i := FirstOffer(s.offers, caller, named);
      i.Some? && Slot(s.offers[i.value].from, s.offers[i.value].handle) in s.entries
    ensures var i := FirstOffer(s.offers, caller, named).value;
      var h := s.offers[i].handle;
      var from, k := Slot(s.offers[i].from, h), Slot(caller, h);
      var e := s.entries[from];
      Claim(s, caller, named, queue, vital)
      == (Adopt(s.(offers := s.offers[..i] + s.offers[i + 1..], entries := (s.entries - {from})[k := e]), k, queue, vital),
          Ready(Ok((h, e.name, e.listener))))
  {
    hide Adopt;
  }

  lemma Adopted(s: Net, k: Slot, queue: Option<string>, vital: bool)
    requires k in s.entries
    ensures var t := Adopt(s, k, queue, vital);
      && t.entries.Keys == s.entries.Keys && (forall j :: j in s.entries && j != k ==> t.entries[j] == s.entries[j])
      && t.entries[k].conn == s.entries[k].conn && t.entries[k].key == s.entries[k].key && t.entries[k].name == s.entries[k].name
  {
  }

  lemma OnlyOffer(s: Net, caller: Caller, handle: nat, to: Caller)
    requires Inv(s) && Transfer(s, caller, handle, to).1.Ok?
    ensures var t := Transfer(s, caller, handle, to).0;
      && t.entries == s.entries && t.offers != [] && t.offers[|t.offers| - 1] == Offer(caller, to, handle)
      && Slot(caller, handle) in s.entries && (forall k :: k in s.entries && k.handle == handle ==> k == Slot(caller, handle))
      && forall o :: o in t.offers && o.handle == handle ==> o == Offer(caller, to, handle)
  {
    assert Numbered(s) && OffersStand(s);
    WithoutExact(s.offers, caller, handle);
    var t := Transfer(s, caller, handle, to).0;
    forall o | o in t.offers && o.handle == handle
      ensures o == Offer(caller, to, handle)
    {
      assert Held(s, handle);
      assert o in s.offers ==> Mine(s, Slot(o.from, handle));
    }
  }

  /** Offers are taken oldest first: of two made to a node that had none, the first made. */
  lemma {:induction false} OldestOfferFirst(s: Net, a: Caller, g: nat, b: Caller, h: nat, to: Caller, queue: Option<string>, vital: bool)
    requires Reachable(s) && (forall o :: o in s.offers ==> o.to != to) && (a != b || g != h)
    requires Transfer(s, a, g, to).1.Ok? && Transfer(Transfer(s, a, g, to).0, b, h, to).1.Ok?
    ensures var t := Transfer(Transfer(s, a, g, to).0, b, h, to).0;
      var (u, r) := Claim(t, to, None, queue, vital);
      && r.Ready? && r.answer.Ok? && r.answer.value.0 == g
      && var again := Claim(u, to, None, queue, vital).1;
        again.Ready? && again.answer.Ok? && again.answer.value.0 == h
  {
    hide Inv, Reachable, Transfer, Claim, FirstOffer;
    ReachableInv(s);
    TwoOffers(s, a, g, b, h, to);
    var t := Transfer(Transfer(s, a, g, to).0, b, h, to).0;
    var n := |t.offers|;
    FirstIs(t.offers, to, n - 2);
    ClaimBranches(t, to, None, queue, vital);
    ClaimRekeys(t, to, None, queue, vital);
    var u := Claim(t, to, None, queue, vital).0;
    assert u.offers == t.offers[..n - 2] + [t.offers[n - 1]];
    FirstIs(u.offers, to, n - 2);
    ClaimBranches(u, to, None, queue, vital);
  }

  lemma ClaimRekeys(s: Net, caller: Caller, named: Option<nat>, queue: Option<string>, vital: bool)
    ensures var i := FirstOffer(s.offers, caller, named);
      i.Some? && Slot(s.offers[i.value].from, s.offers[i.value].handle) in s.entries ==>
        Claim(s, caller, named, queue, vital).0.entries.Keys
        == s.entries.Keys - {Slot(s.offers[i.value].from, s.offers[i.value].handle)} + {Slot(caller, s.offers[i.value].handle)}
  {
  }

  lemma {:induction false} FirstIs(offers: seq<Offer>, to: Caller, i: nat)
    requires i < |offers| && offers[i].to == to && forall j :: 0 <= j < i ==> offers[j].to != to
    ensures FirstOffer(offers, to, None) == Some(i)
  {
    assert Fits(offers[i], to, None);
  }

  lemma OneHolder(s: Net, j: Slot, k: Slot)
    requires Inv(s)
    ensures j in s.entries && k in s.entries && j.handle == k.handle ==> j == k
  {
    assert Numbered(s);
  }

  lemma TwoOffers(s: Net, a: Caller, g: nat, b: Caller, h: nat, to: Caller)
    requires Inv(s) && (forall o :: o in s.offers ==> o.to != to) && (a != b || g != h)
    requires Transfer(s, a, g, to).1.Ok? && Transfer(Transfer(s, a, g, to).0, b, h, to).1.Ok?
    ensures var t := Transfer(Transfer(s, a, g, to).0, b, h, to).0;
      var n := |t.offers|;
      && t.entries == s.entries && n >= 2 && t.offers[n - 2] == Offer(a, to, g) && t.offers[n - 1] == Offer(b, to, h)
      && (forall j :: 0 <= j < n - 2 ==> t.offers[j].to != to)
      && Slot(a, g) in s.entries && Slot(b, h) in s.entries && Slot(b, h) != Slot(to, g) && g != h
  {
    OneHolder(s, Slot(a, g), Slot(b, h));
    TransferIs(s, a, g, to);
    TransferIs(Transfer(s, a, g, to).0, b, h, to);
    hide Inv, Transfer, Without;
    OffersAre(s.offers, a, g, b, h, to);
  }

  lemma TransferIs(s: Net, caller: Caller, handle: nat, to: Caller)
    requires Transfer(s, caller, handle, to).1.Ok?
    ensures var t := Transfer(s, caller, handle, to).0;
      && t.entries == s.entries && t.offers == Without(s.offers, caller, handle) + [Offer(caller, to, handle)]
      && Slot(caller, handle) in s.entries && caller != to
  {
    hide Without;
  }

  lemma OffersAre(offers: seq<Offer>, a: Caller, g: nat, b: Caller, h: nat, to: Caller)
    requires (forall o :: o in offers ==> o.to != to) && (a != b || g != h)
    ensures var all := Without(Without(offers, a, g) + [Offer(a, to, g)], b, h) + [Offer(b, to, h)];
      var n := |all|;
      && n >= 2 && all[n - 2] == Offer(a, to, g) && all[n - 1] == Offer(b, to, h)
      && forall j :: 0 <= j < n - 2 ==> all[j].to != to
  {
    hide Without;
    var first := Without(offers, a, g);
    WithoutLast(first, Offer(a, to, g), b, h);
    WithoutExact(offers, a, g);
    WithoutExact(first, b, h);
    var rest := Without(first, b, h);
    forall j | 0 <= j < |rest|
      ensures rest[j].to != to
    {
      assert rest[j] in rest;
    }
  }

  lemma {:induction false} WithoutLast(offers: seq<Offer>, o: Offer, from: Caller, handle: nat)
    requires o.from != from || o.handle != handle
    ensures Without(offers + [o], from, handle) == Without(offers, from, handle) + [o]
  {
    if offers == [] {
      WithoutStep([o], from, handle);
      assert [o][1..] == [] && [] + [o] == [o];
    } else {
      assert (offers + [o])[1..] == offers[1..] + [o];
      WithoutLast(offers[1..], o, from, handle);
      WithoutStep(offers, from, handle);
      WithoutStep(offers + [o], from, handle);
      hide Without;
    }
  }
}
