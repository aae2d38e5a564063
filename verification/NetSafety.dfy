/** What every run of the net connector keeps. */
module NetSafety {
  import opened Prelude
  import opened NetState

  /** Everything the transport has ever reported, in order. */
  function Reports(s: Net): seq<Event> {
    s.log.processed + s.events
  }

  /** The messages `evs` carries for one key. */
  function DataOf(evs: seq<Event>, key: nat): seq<Bytes> {
    if evs == [] then [] else
      var last := evs[|evs| - 1];
      DataOf(evs[..|evs| - 1], key) + if last.Data? && last.key == key then [last.data] else []
  }

  /** The messages an owner of `handle` has been given. */
  function HandedTo(ds: seq<Delivery>, handle: nat): seq<Bytes> {
    if ds == [] then [] else
      var last := ds[|ds| - 1];
      HandedTo(ds[..|ds| - 1], handle) + if last.handle == handle then [last.data] else []
  }

  predicate SaysClosed(evs: seq<Event>, key: nat) {
    exists i :: 0 <= i < |evs| && evs[i].Closed? && evs[i].key == key
  }

  /** What was reported before the first close of a key. */
  function BeforeClose(evs: seq<Event>, key: nat): seq<Event> {
    if evs == [] || (evs[0].Closed? && evs[0].key == key) then [] else [evs[0]] + BeforeClose(evs[1..], key)
  }

  // ----- the invariant -----

  /** A handle number has one owner, and one key that no other handle has. */
  ghost predicate Numbered(s: Net) {
    && (forall k :: k in s.entries ==> k.handle in s.log.keyOf && s.log.keyOf[k.handle] == s.entries[k].key)
    && (forall k1, k2 :: k1 in s.entries && k2 in s.entries && k1.handle == k2.handle ==> k1 == k2)
    && (forall h :: h in s.log.keyOf ==> h < s.nextHandle && s.log.keyOf[h] < s.nextKey)
    && (forall h1, h2 :: h1 in s.log.keyOf && h2 in s.log.keyOf && s.log.keyOf[h1] == s.log.keyOf[h2] ==> h1 == h2)
  }

  /** A link is used only once the news of its connection is in the inbox. */
  ghost predicate InOrder(s: Net) {
    var r := Reports(s);
    && (forall i :: 0 <= i < |r| ==> r[i].key < s.nextKey)
    && (forall i, j :: 0 <= i < j < |r| && r[j].Accepted? ==> r[i].key != r[j].key)
    && (forall i, h :: 0 <= i < |s.events| && s.events[i].Accepted? && h in s.log.keyOf
          ==> s.log.keyOf[h] != s.events[i].key)
  }

  ghost predicate TidyEntry(s: Net, e: Entry) {
    && (e.queue.Some? ==> e.inbound == [])
    && (e.waiting.Some? ==> e.queue.None? && !e.listener && e.conn.Some?)
    && |e.inbound| <= RECV_BACKLOG
    && (e.gone.None? ==> !SaysClosed(s.log.processed, e.key))
  }

  /** A pushing entry buffers nothing, a buffering one keeps its bound. */
  ghost predicate Tidy(s: Net) {
    forall k :: k in s.entries ==> TidyEntry(s, s.entries[k])
  }

  /** What an owner was given of an entry, then what it still buffers. */
  function Seen(s: Net, k: Slot): seq<Bytes>
    requires k in s.entries
  {
    HandedTo(s.log.handed, k.handle) + s.entries[k].inbound
  }

  /**
   Swept event `n` is what ended the entry: the far end's close, or the data that
   found its buffer full. No close came before it, and the data that came before
   it is what the owner was given and the buffer holds.
   */
  ghost predicate EndedAt(s: Net, k: Slot, n: nat)
    requires k in s.entries
  {
    var e := s.entries[k];
    && n < |s.log.processed| && s.log.processed[n].key == e.key && !SaysClosed(s.log.processed[..n], e.key)
    && Seen(s, k) == DataOf(s.log.processed[..n], e.key)
    && if k.handle in s.log.farGone
       then s.log.processed[n].Closed? && e.gone == Some(s.log.processed[n].reason)
       else s.log.processed[n].Data? && |Seen(s, k)| >= RECV_BACKLOG && e.gone == Some(Some(OVERFLOW))
  }

  /** Handed out, then buffered: what was swept for the connection, until it was gone. */
  ghost predicate ConservedAt(s: Net, k: Slot)
    requires k in s.entries
  {
    if s.entries[k].gone.None? then Seen(s, k) == DataOf(s.log.processed, s.entries[k].key)
    else exists n: nat :: EndedAt(s, k, n)
  }

  ghost predicate Conserved(s: Net) {
    && (forall k :: k in s.entries ==> ConservedAt(s, k))
    && (forall h :: h in s.log.keyOf ==> HandedTo(s.log.handed, h) <= DataOf(s.log.processed, s.log.keyOf[h]))
    && (forall i :: 0 <= i < |s.log.handed| ==> s.log.handed[i].handle in s.log.keyOf)
  }

  /** Marked gone without `close`: by the far end, or while still opening. */
  predicate Spared(s: Net, h: nat) {
    h in s.log.farGone || h in s.log.stranded
  }

  ghost predicate Held(s: Net, h: nat) {
    exists k :: k in s.entries && k.handle == h
  }

  ghost predicate ArrivalPending(s: Net, c: Conn) {
    exists i :: 0 <= i < |s.events| && s.events[i].Accepted? && s.events[i].conn == c
  }

  /** Who holds which Conn. */
  ghost predicate ConnsPlaced(s: Net) {
    && (forall c :: c in s.log.holder ==> c in s.log.seen && s.log.holder[c] in s.log.keyOf)
    && (forall k :: k in s.entries && s.entries[k].conn.Some?
          ==> s.entries[k].conn.value in s.log.holder && s.log.holder[s.entries[k].conn.value] == k.handle)
    && (forall c, k :: c in s.log.holder && k in s.entries && s.log.holder[c] == k.handle
          ==> s.entries[k].conn == Some(c))
    && (forall i :: 0 <= i < |s.events| && s.events[i].Accepted?
          ==> s.events[i].conn in s.log.seen && s.events[i].conn !in s.log.holder)
    && (forall i, j :: 0 <= i < j < |s.events| && s.events[i].Accepted? && s.events[j].Accepted?
          ==> s.events[i].conn != s.events[j].conn)
    && (forall k :: k in s.log.opening ==> k.handle < s.nextHandle)
    && (forall k1, k2 :: k1 in s.log.opening && k2 in s.log.opening && k1.handle == k2.handle ==> k1 == k2)
    && (forall k, c :: k in s.log.opening && c in s.log.holder ==> s.log.holder[c] != k.handle)
  }

  /** Which handles were marked gone, and how. */
  ghost predicate MarksKept(s: Net) {
    && (forall h :: h in s.log.farGone ==> h in s.log.keyOf)
    && (forall h :: h in s.log.stranded ==> h in s.log.keyOf)
    && (forall k :: k in s.entries && s.entries[k].gone.None? ==> !Spared(s, k.handle))
    && (forall k :: k in s.entries && s.entries[k].gone.Some? && s.entries[k].conn.None? ==> Spared(s, k.handle))
  }

  ghost predicate ClosedOnce(s: Net) {
    && Distinct(s.log.closes)
    && (forall c :: c in s.log.closes ==> c in s.log.seen)
  }

  ghost predicate ClosedHeld(s: Net) {
    forall k :: k in s.entries && s.entries[k].conn.Some?
      ==> (s.entries[k].conn.value in s.log.closes <==> s.entries[k].gone.Some? && !Spared(s, k.handle))
  }

  ghost predicate ClosedLeft(s: Net) {
    forall c :: c in s.log.holder && !Held(s, s.log.holder[c])
      ==> (c in s.log.closes <==> !Spared(s, s.log.holder[c]))
  }

  ghost predicate ClosedUnheld(s: Net) {
    forall c :: c in s.log.seen && c !in s.log.holder
      ==> (c in s.log.closes <==> !ArrivalPending(s, c))
  }

  /**
   Exactly which Conns `close` has been called for: of those an entry held, the
   ones that left the table or overflowed without being spared; of the rest, those
   not still waiting to be swept. And each of them once.
   */
  ghost predicate ClosedRightly(s: Net) {
    ClosedOnce(s) && ClosedHeld(s) && ClosedLeft(s) && ClosedUnheld(s)
  }

  /** An offer names what its offerer still holds, or what was refused since. */
  ghost predicate OffersStand(s: Net) {
    && (forall o :: o in s.offers ==> Mine(s, Slot(o.from, o.handle)) || o.handle in s.log.refused)
    && (forall i, j :: 0 <= i < j < |s.offers| ==> s.offers[i].from != s.offers[j].from || s.offers[i].handle != s.offers[j].handle)
    && (forall o :: o in s.offers ==> o.from != o.to)
    && (forall h :: h in s.log.refused ==> h in s.log.keyOf && !Held(s, h))
  }

  /** No listener has more than its backlog waiting under it. */
  ghost predicate BacklogsBounded(s: Net) {
    forall owner, listener :: |WaitingUnder(s.entries, owner, listener)| <= ACCEPT_BACKLOG
  }

  ghost predicate Inv(s: Net) {
    && Numbered(s) && InOrder(s) && Tidy(s) && Conserved(s)
    && ConnsPlaced(s) && MarksKept(s) && ClosedRightly(s)
    && OffersStand(s) && BacklogsBounded(s)
  }

  lemma {:induction false} InvFresh()
    ensures Inv(Fresh)
  {
  }

  // ----- sequences of data -----

  lemma {:induction false} DataAppend(a: seq<Event>, b: seq<Event>, key: nat)
    ensures DataOf(a + b, key) == DataOf(a, key) + DataOf(b, key)
  {
    if b == [] {
      assert a + b == a;
    } else {
      var n := |b| - 1;
      assert (a + b)[..|a + b| - 1] == a + b[..n];
      DataAppend(a, b[..n], key);
    }
  }

  lemma {:induction false} BeforeCloseIs(evs: seq<Event>, key: nat, n: nat)
    requires n <= |evs| && !SaysClosed(evs[..n], key)
    requires n < |evs| ==> evs[n].Closed? && evs[n].key == key
    ensures BeforeClose(evs, key) == evs[..n]
  {
    if n > 0 {
      assert evs[..n][0] == evs[0];
      var rest := evs[1..][..n - 1];
      assert forall i {:trigger rest[i]} :: 0 <= i < |rest| ==> rest[i] == evs[..n][i + 1];
      BeforeCloseIs(evs[1..], key, n - 1);
      assert evs[..n] == [evs[0]] + evs[1..][..n - 1];
    }
  }

  lemma {:induction false} HandedAppend(a: seq<Delivery>, b: seq<Delivery>, handle: nat)
    ensures HandedTo(a + b, handle) == HandedTo(a, handle) + HandedTo(b, handle)
  {
    if b == [] {
      assert a + b == a;
    } else {
      var n := |b| - 1;
      assert (a + b)[..|a + b| - 1] == a + b[..n];
      HandedAppend(a, b[..n], handle);
    }
  }

  lemma {:induction false} HandedToNobody(ds: seq<Delivery>, handle: nat)
    requires forall i :: 0 <= i < |ds| ==> ds[i].handle != handle
    ensures HandedTo(ds, handle) == []
  {
    if ds != [] {
      HandedToNobody(ds[..|ds| - 1], handle);
    }
  }

  lemma {:induction false} NoDataFor(evs: seq<Event>, key: nat)
    requires forall i :: 0 <= i < |evs| && evs[i].Data? ==> evs[i].key != key
    ensures DataOf(evs, key) == []
  {
    if evs != [] {
      NoDataFor(evs[..|evs| - 1], key);
    }
  }

  lemma {:induction false} DeliveriesNamed(k: Slot, queue: Option<string>, inbound: seq<Bytes>)
    ensures forall i :: 0 <= i < |Deliveries(k, queue, inbound)| ==> Deliveries(k, queue, inbound)[i].handle == k.handle
  {
    if inbound != [] {
      DeliveriesNamed(k, queue, inbound[1..]);
    }
  }

  lemma OneDelivery(d: Delivery, handle: nat)
    ensures HandedTo([d], handle) == if d.handle == handle then [d.data] else []
  {
    assert [d][..|[d]| - 1] == [];
    assert HandedTo([], handle) == [];
  }

  lemma {:induction false} DeliveriesTo(k: Slot, queue: Option<string>, inbound: seq<Bytes>)
    ensures HandedTo(Deliveries(k, queue, inbound), k.handle) == inbound
  {
    if inbound != [] {
      var d := Delivery(k.handle, inbound[0], k.owner, queue);
      DeliveriesTo(k, queue, inbound[1..]);
      HandedAppend([d], Deliveries(k, queue, inbound[1..]), k.handle);
      OneDelivery(d, k.handle);
      assert [inbound[0]] + inbound[1..] == inbound;
    }
  }

  // ----- steps that keep every entry's identity -----

  /** Same entries under the same numbers, keys and Conns; some wait no longer. */
  ghost predicate SameShape(s: Net, t: Net) {
    && t.entries.Keys == s.entries.Keys
    && (forall k :: k in s.entries ==>
          && t.entries[k].key == s.entries[k].key
          && t.entries[k].conn == s.entries[k].conn
          && (t.entries[k].waiting == s.entries[k].waiting || t.entries[k].waiting.None?))
    && t.nextHandle == s.nextHandle && t.nextKey == s.nextKey && t.offers == s.offers
    && t.log.keyOf == s.log.keyOf && t.log.holder == s.log.holder && t.log.seen == s.log.seen
    && t.log.opening == s.log.opening && t.log.refused == s.log.refused
  }

  lemma {:induction false} WaitingShrinks(s: Net, t: Net)
    requires BacklogsBounded(s)
    requires forall k :: k in t.entries && t.entries[k].waiting.Some? ==> k in s.entries && s.entries[k].waiting == t.entries[k].waiting
    ensures BacklogsBounded(t)
  {
    forall owner, listener: nat
      ensures |WaitingUnder(t.entries, owner, listener)| <= ACCEPT_BACKLOG
    {
      var a, b := WaitingUnder(t.entries, owner, listener), WaitingUnder(s.entries, owner, listener);
      assert a <= b;
      SubsetSize(a, b);
    }
  }

  lemma {:induction false} SubsetSize<T>(a: set<T>, b: set<T>)
    requires a <= b
    ensures |a| <= |b|
  {
    assert b == a + (b - a);
  }

  lemma {:induction false} ShapeKeeps(s: Net, t: Net)
    requires Numbered(s) && InOrder(s) && ConnsPlaced(s) && OffersStand(s) && BacklogsBounded(s)
    requires SameShape(s, t)
    requires Reports(t) == Reports(s) && (t.events == s.events || (s.events != [] && t.events == s.events[1..]))
    ensures Numbered(t) && InOrder(t) && ConnsPlaced(t) && OffersStand(t) && BacklogsBounded(t)
  {
    WaitingShrinks(s, t);
    forall h | h in t.log.refused
      ensures !Held(t, h)
    {
      assert !Held(s, h);
    }
  }

  // ----- accounting for data -----

  lemma OneEvent(ev: Event, key: nat)
    ensures DataOf([ev], key) == if ev.Data? && ev.key == key then [ev.data] else []
  {
    assert [ev][..|[ev]| - 1] == [];
    assert DataOf([], key) == [];
  }

  /** Entry `f` after sweeping `p` and handing out `d` is owed for by entry `e` before. */
  ghost predicate Balanced(e: Entry, f: Entry, handle: nat, p: seq<Event>, d: seq<Delivery>) {
    && f.key == e.key && (e.gone.Some? ==> f.gone == e.gone)
    && HandedTo(d, handle) + f.inbound == e.inbound + if f.gone.None? then DataOf(p, e.key) else []
  }

  /** What `p` and the far end's doing have to do with entry `f` being gone. */
  ghost predicate MarkedBy(s: Net, t: Net, k: Slot, p: seq<Event>)
    requires k in s.entries && k in t.entries
  {
    var e, f := s.entries[k], t.entries[k];
    && (e.gone.Some? ==> (k.handle in t.log.farGone <==> k.handle in s.log.farGone))
    && (e.gone.None? && f.gone.Some? ==>
         && |p| == 1 && p[0].key == e.key
         && if k.handle in t.log.farGone then p[0].Closed? && f.gone == Some(p[0].reason)
            else p[0].Data? && |e.inbound| >= RECV_BACKLOG && f.gone == Some(Some(OVERFLOW)))
  }

  ghost predicate Accounts(s: Net, t: Net, p: seq<Event>, d: seq<Delivery>) {
    && t.log.processed == s.log.processed + p
    && t.log.handed == s.log.handed + d
    && t.log.keyOf == s.log.keyOf
    && (forall k :: k in t.entries ==>
         k in s.entries && Balanced(s.entries[k], t.entries[k], k.handle, p, d) && MarkedBy(s, t, k, p))
    && (forall i :: 0 <= i < |d| ==> Held(t, d[i].handle))
  }

  /** What ended an entry stays what ended it, under whatever owner. */
  lemma EndStays(s: Net, t: Net, k: Slot, j: Slot, n: nat)
    requires k in s.entries && j in t.entries && EndedAt(s, k, n) && s.log.processed <= t.log.processed
    requires j.handle == k.handle && t.entries[j].key == s.entries[k].key && t.entries[j].gone == s.entries[k].gone
    requires Seen(t, j) == Seen(s, k) && (j.handle in t.log.farGone <==> k.handle in s.log.farGone)
    ensures EndedAt(t, j, n)
  {
    assert t.log.processed[..n] == s.log.processed[..n];
  }

  /** An entry nothing was handed out of or swept for stays conserved. */
  lemma ConservedStays(s: Net, t: Net, k: Slot, j: Slot)
    requires k in s.entries && j in t.entries && ConservedAt(s, k) && s.log.processed <= t.log.processed
    requires j.handle == k.handle && t.entries[j].key == s.entries[k].key && t.entries[j].gone == s.entries[k].gone
    requires Seen(t, j) == Seen(s, k) && (j.handle in t.log.farGone <==> k.handle in s.log.farGone)
    requires s.entries[k].gone.None? ==> DataOf(t.log.processed, s.entries[k].key) == DataOf(s.log.processed, s.entries[k].key)
    ensures ConservedAt(t, j)
  {
    hide EndedAt, Seen;
    if s.entries[k].gone.Some? {
      var n: nat :| EndedAt(s, k, n);
      EndStays(s, t, k, j, n);
    }
  }

  lemma Regrouped(h: seq<Bytes>, d: seq<Bytes>, f: seq<Bytes>, e: seq<Bytes>, more: seq<Bytes>)
    requires d + f == e + more
    ensures (h + d) + f == (h + e) + more
  {
    assert (h + d) + f == h + (d + f);
    assert (h + e) + more == h + (e + more);
  }

  lemma {:induction false} SeenBalances(s: Net, t: Net, p: seq<Event>, d: seq<Delivery>, k: Slot)
    requires Accounts(s, t, p, d) && k in t.entries
    ensures k in s.entries && Seen(t, k) == Seen(s, k) + if t.entries[k].gone.None? then DataOf(p, s.entries[k].key) else []
  {
    hide MarkedBy, DataOf, HandedTo;
    HandedAppend(s.log.handed, d, k.handle);
    var e, f := s.entries[k], t.entries[k];
    assert Balanced(e, f, k.handle, p, d);
    Regrouped(HandedTo(s.log.handed, k.handle), HandedTo(d, k.handle), f.inbound, e.inbound,
              if f.gone.None? then DataOf(p, e.key) else []);
  }

  lemma {:induction false} BalanceKeeps(s: Net, t: Net, p: seq<Event>, d: seq<Delivery>, k: Slot)
    requires Accounts(s, t, p, d) && k in t.entries && k in s.entries && ConservedAt(s, k) && TidyEntry(s, s.entries[k])
    ensures ConservedAt(t, k)
  {
    SeenBalances(s, t, p, d, k);
    var e, f := s.entries[k], t.entries[k];
    assert Seen(s, k) + [] == Seen(s, k);
    hide Seen;
    if f.gone.None? {
      DataAppend(s.log.processed, p, e.key);
    } else if e.gone.Some? {
      var n: nat :| EndedAt(s, k, n);
      EndStays(s, t, k, k, n);
    } else {
      NewlyEnded(s, t, p, d, k);
    }
  }

  lemma NewlyEnded(s: Net, t: Net, p: seq<Event>, d: seq<Delivery>, k: Slot)
    requires Accounts(s, t, p, d) && k in t.entries && k in s.entries && ConservedAt(s, k) && TidyEntry(s, s.entries[k])
    requires s.entries[k].gone.None? && t.entries[k].gone.Some? && Seen(t, k) == Seen(s, k)
    ensures EndedAt(t, k, |s.log.processed|)
  {
    assert t.log.processed[..|s.log.processed|] == s.log.processed;
    assert MarkedBy(s, t, k, p);
  }

  lemma {:induction false} DataGrows(a: seq<Event>, b: seq<Event>, key: nat)
    requires a <= b
    ensures DataOf(a, key) <= DataOf(b, key)
  {
    assert b == a + b[|a|..];
    DataAppend(a, b[|a|..], key);
  }

  /** What an entry's owner was given is a prefix of what was swept. */
  lemma {:induction false} ConservedPrefix(s: Net, k: Slot)
    requires k in s.entries && ConservedAt(s, k)
    ensures HandedTo(s.log.handed, k.handle) <= Seen(s, k) <= DataOf(s.log.processed, s.entries[k].key)
  {
    if s.entries[k].gone.Some? {
      var n: nat :| EndedAt(s, k, n);
      DataGrows(s.log.processed[..n], s.log.processed, s.entries[k].key);
    }
  }

  lemma {:induction false} AccountsConserve(s: Net, t: Net, p: seq<Event>, d: seq<Delivery>)
    requires Numbered(s) && Tidy(s) && Conserved(s) && Accounts(s, t, p, d)
    ensures Conserved(t)
  {
    hide HandedTo, ConservedAt, Balanced, MarkedBy, TidyEntry;
    forall k | k in t.entries
      ensures ConservedAt(t, k)
    {
      BalanceKeeps(s, t, p, d, k);
    }
    forall h | h in t.log.keyOf
      ensures HandedTo(t.log.handed, h) <= DataOf(t.log.processed, t.log.keyOf[h])
    {
      if k :| k in t.entries && k.handle == h {
        ConservedPrefix(t, k);
        KeyKept(s, t, p, d, k);
      } else {
        HandedAppend(s.log.handed, d, h);
        HandedToNobody(d, h);
        DataGrows(s.log.processed, t.log.processed, s.log.keyOf[h]);
      }
    }
    forall i | 0 <= i < |t.log.handed|
      ensures t.log.handed[i].handle in t.log.keyOf
    {
      if i >= |s.log.handed| {
        assert t.log.handed[i] == d[i - |s.log.handed|];
        var k :| k in t.entries && k.handle == t.log.handed[i].handle;
      }
    }
  }

  lemma KeyKept(s: Net, t: Net, p: seq<Event>, d: seq<Delivery>, k: Slot)
    requires Numbered(s) && Accounts(s, t, p, d) && k in t.entries
    ensures t.log.keyOf[k.handle] == t.entries[k].key
  {
  }

  // ----- accounting for closes -----

  lemma {:induction false} PendingKept(s: Net, t: Net)
    requires t.events == s.events || (s.events != [] && !s.events[0].Accepted? && t.events == s.events[1..])
    ensures forall c :: ArrivalPending(t, c) <==> ArrivalPending(s, c)
  {
    if t.events != s.events {
      forall c | ArrivalPending(s, c)
        ensures ArrivalPending(t, c)
      {
        var i :| 0 <= i < |s.events| && s.events[i].Accepted? && s.events[i].conn == c;
        assert t.events[i - 1] == s.events[i];
      }
      forall c | ArrivalPending(t, c)
        ensures ArrivalPending(s, c)
      {
        var i :| 0 <= i < |t.events| && t.events[i].Accepted? && t.events[i].conn == c;
        assert s.events[i + 1] == t.events[i];
      }
    }
  }

  ghost predicate SameMarks(s: Net, t: Net, but: set<Slot>) {
    && SameShape(s, t)
    && (forall k :: k in s.entries && k !in but ==> t.entries[k].gone == s.entries[k].gone)
    && (t.events == s.events || (s.events != [] && !s.events[0].Accepted? && t.events == s.events[1..]))
  }

  lemma {:induction false} NoMark(s: Net, t: Net)
    requires MarksKept(s) && ClosedRightly(s) && SameMarks(s, t, {})
    requires t.log.closes == s.log.closes && t.log.farGone == s.log.farGone && t.log.stranded == s.log.stranded
    ensures MarksKept(t) && ClosedRightly(t)
  {
    PendingKept(s, t);
    assert forall h :: Held(t, h) <==> Held(s, h);
  }

  /** No other entry shares `k`'s number or Conn. */
  ghost predicate Alone(s: Net, k: Slot) {
    && k in s.entries
    && (forall j :: j in s.entries && j != k ==>
          j.handle != k.handle && (s.entries[k].conn.Some? ==> s.entries[j].conn != s.entries[k].conn))
    && (s.entries[k].conn.Some? ==>
          s.entries[k].conn.value in s.log.seen && s.entries[k].conn.value in s.log.holder
          && s.log.holder[s.entries[k].conn.value] == k.handle)
  }

  lemma {:induction false} SlotAlone(s: Net, k: Slot)
    requires Numbered(s) && ConnsPlaced(s) && k in s.entries
    ensures Alone(s, k)
  {
  }

  /** `t` differs from `s` in `k`'s mark: it is gone now, and was not. */
  ghost predicate Marks(s: Net, t: Net, k: Slot) {
    && SameMarks(s, t, {k}) && Alone(s, k)
    && s.entries[k].gone.None? && t.entries[k].gone.Some?
  }

  /** Marking `k` gone without closing it: the far end went, or it holds no Conn yet. */
  lemma {:induction false} MarkSpared(s: Net, t: Net, k: Slot)
    requires MarksKept(s) && ClosedRightly(s) && Marks(s, t, k) && k.handle in s.log.keyOf
    requires t.log.closes == s.log.closes
    requires (t.log.farGone == s.log.farGone + {k.handle} && t.log.stranded == s.log.stranded)
             || (t.log.farGone == s.log.farGone && t.log.stranded == s.log.stranded + {k.handle})
    ensures MarksKept(t) && ClosedRightly(t)
  {
    PendingKept(s, t);
    assert forall h :: Held(t, h) <==> Held(s, h);
    assert forall h :: Spared(t, h) <==> Spared(s, h) || h == k.handle;
    assert Held(t, k.handle);
    assert ClosedOnce(t) && ClosedHeld(t);
    assert ClosedLeft(t);
    assert ClosedUnheld(t);
  }

  /** Marking `k` gone and closing its Conn. */
  lemma {:induction false} MarkClosed(s: Net, t: Net, k: Slot)
    requires MarksKept(s) && ClosedRightly(s) && Marks(s, t, k) && s.entries[k].conn.Some?
    requires t.log.closes == s.log.closes + [s.entries[k].conn.value]
    requires t.log.farGone == s.log.farGone && t.log.stranded == s.log.stranded
    ensures MarksKept(t) && ClosedRightly(t)
  {
    PendingKept(s, t);
    var c := s.entries[k].conn.value;
    assert c !in s.log.closes;
    assert forall x :: x in t.log.closes <==> x in s.log.closes || x == c;
    assert ClosedOnce(t);
    MarkLeaves(s, t, k);
    MarkHeld(s, t, k);
    assert ClosedUnheld(t);
  }

  lemma {:induction false} MarkHeld(s: Net, t: Net, k: Slot)
    requires MarksKept(s) && ClosedHeld(s) && Marks(s, t, k) && s.entries[k].conn.Some?
    requires t.log.closes == s.log.closes + [s.entries[k].conn.value]
    requires t.log.farGone == s.log.farGone && t.log.stranded == s.log.stranded
    ensures MarksKept(t) && ClosedHeld(t)
  {
    assert forall h :: Spared(t, h) <==> Spared(s, h);
    assert forall x :: x in t.log.closes <==> x in s.log.closes || x == s.entries[k].conn.value;
  }

  lemma {:induction false} MarkLeaves(s: Net, t: Net, k: Slot)
    requires ClosedLeft(s) && Marks(s, t, k) && s.entries[k].conn.Some?
    requires t.log.closes == s.log.closes + [s.entries[k].conn.value]
    requires t.log.farGone == s.log.farGone && t.log.stranded == s.log.stranded
    ensures ClosedLeft(t)
  {
    assert forall h :: Held(t, h) <==> Held(s, h);
    assert Held(t, k.handle);
    assert forall x :: x in t.log.closes <==> x in s.log.closes || x == s.entries[k].conn.value;
  }

  // ----- one event -----

  /** What a data event hands out at once. */
  function PushedData(e: Entry, k: Slot, ev: Event): seq<Delivery>
    requires ev.Data?
  {
    if e.gone.None? && e.queue.Some? then [Delivery(k.handle, ev.data, k.owner, e.queue)] else []
  }

  lemma {:induction false} DataBalanced(s: Net, k: Slot, j: Slot)
    requires Numbered(s) && Tidy(s) && MarksKept(s)
    requires s.events != [] && s.events[0].Data? && SlotOf(s.entries, s.events[0].key) == Some(k) && j in s.entries
    ensures Balanced(s.entries[j], RouteHead(s).entries[j], j.handle, [s.events[0]], PushedData(s.entries[k], k, s.events[0]))
    ensures MarkedBy(s, RouteHead(s), j, [s.events[0]])
  {
    var ev := s.events[0];
    var d := PushedData(s.entries[k], k, ev);
    OneEvent(ev, s.entries[j].key);
    if d != [] {
      OneDelivery(d[0], j.handle);
    }
    assert TidyEntry(s, s.entries[k]);
    assert j == k || (j.handle != k.handle && s.entries[j].key != ev.key);
  }

  lemma DataLogs(s: Net, k: Slot)
    requires s.events != [] && s.events[0].Data? && SlotOf(s.entries, s.events[0].key) == Some(k)
    ensures var t := RouteHead(s);
      && t.entries.Keys == s.entries.Keys && t.log.keyOf == s.log.keyOf
      && t.log.processed == s.log.processed + [s.events[0]]
      && t.log.handed == s.log.handed + PushedData(s.entries[k], k, s.events[0])
  {
  }

  lemma {:induction false} DataAccounts(s: Net, k: Slot)
    requires Numbered(s) && Tidy(s) && MarksKept(s)
    requires s.events != [] && s.events[0].Data? && SlotOf(s.entries, s.events[0].key) == Some(k)
    ensures Accounts(s, RouteHead(s), [s.events[0]], PushedData(s.entries[k], k, s.events[0]))
  {
    DataLogs(s, k);
    hide Balanced, MarkedBy, RouteHead, Numbered, Tidy, MarksKept;
    var t := RouteHead(s);
    assert k in t.entries;
    forall j | j in t.entries
      ensures j in s.entries && Balanced(s.entries[j], t.entries[j], j.handle, [s.events[0]], PushedData(s.entries[k], k, s.events[0]))
      ensures MarkedBy(s, t, j, [s.events[0]])
    {
      DataBalanced(s, k, j);
    }
    assert Held(t, k.handle);
  }

  lemma {:induction false} SaysClosedAppend(a: seq<Event>, ev: Event, key: nat)
    ensures SaysClosed(a + [ev], key) <==> SaysClosed(a, key) || (ev.Closed? && ev.key == key)
  {
    var r := a + [ev];
    assert r[|a|] == ev;
    if SaysClosed(a, key) {
      var i :| 0 <= i < |a| && a[i].Closed? && a[i].key == key;
      assert r[i] == a[i];
    }
    if i :| 0 <= i < |r| && r[i].Closed? && r[i].key == key {
      assert i < |a| ==> a[i] == r[i];
    }
  }

  /** An event for a key nobody holds only moves from the inbox to the past. */
  lemma {:induction false} UnclaimedInv(s: Net)
    requires Inv(s) && s.events != [] && !s.events[0].Accepted? && SlotOf(s.entries, s.events[0].key) == None
    ensures Inv(RouteHead(s))
  {
    hide Numbered, InOrder, Tidy, Conserved, ConnsPlaced, MarksKept, ClosedRightly, OffersStand, BacklogsBounded;
    var t := RouteHead(s);
    HeadReports(s);
    ShapeKeeps(s, t);
    NoMark(s, t);
    UnclaimedAccounts(s);
    AccountsConserve(s, t, [s.events[0]], []);
  }

  lemma {:induction false} UnclaimedAccounts(s: Net)
    requires Tidy(s) && s.events != [] && !s.events[0].Accepted? && SlotOf(s.entries, s.events[0].key) == None
    ensures Accounts(s, RouteHead(s), [s.events[0]], []) && Tidy(RouteHead(s))
  {
    var ev := s.events[0];
    var t := RouteHead(s);
    forall k | k in t.entries
      ensures TidyEntry(t, t.entries[k]) && Balanced(s.entries[k], t.entries[k], k.handle, [ev], []) && MarkedBy(s, t, k, [ev])
    {
      assert TidyEntry(s, s.entries[k]);
      OneEvent(ev, s.entries[k].key);
      SaysClosedAppend(s.log.processed, ev, s.entries[k].key);
    }
  }

  lemma DataShape(s: Net, k: Slot, data: Bytes)
    requires k in s.entries
    ensures var t := RouteData(s, k, data);
      SameMarks(s, t, {k}) && (s.entries[k].gone.Some? ==> SameMarks(s, t, {}))
  {
  }

  lemma ClosedShape(s: Net, k: Slot, reason: Option<string>)
    requires k in s.entries
    ensures var t := RouteClosed(s, k, reason);
      SameMarks(s, t, {k}) && (s.entries[k].gone.Some? ==> SameMarks(s, t, {}))
  {
  }

  /** Data and closed events change no entry's identity. */
  lemma {:induction false} RoutedShape(s: Net, k: Slot)
    requires s.events != [] && !s.events[0].Accepted? && SlotOf(s.entries, s.events[0].key) == Some(k)
    ensures SameMarks(s, RouteHead(s), {k}) && Reports(RouteHead(s)) == Reports(s)
    ensures s.entries[k].gone.Some? ==> SameMarks(s, RouteHead(s), {})
  {
    HeadReports(s);
    var u := s.(events := s.events[1..]);
    hide RouteData, RouteClosed, Reports;
    if s.events[0].Data? {
      DataShape(u, k, s.events[0].data);
    } else {
      ClosedShape(u, k, s.events[0].reason);
    }
  }

  lemma {:induction false} HeadReports(s: Net)
    requires s.events != []
    ensures Reports(RouteHead(s)) == Reports(s)
    ensures RouteHead(s).events == s.events[1..] && RouteHead(s).log.processed == s.log.processed + [s.events[0]]
  {
    assert s.events == [s.events[0]] + s.events[1..];
  }

  lemma {:induction false} DataTidy(s: Net, k: Slot)
    requires Tidy(s) && s.events != [] && s.events[0].Data? && SlotOf(s.entries, s.events[0].key) == Some(k)
    ensures Tidy(RouteHead(s))
  {
    var t := RouteHead(s);
    forall j | j in t.entries
      ensures TidyEntry(t, t.entries[j])
    {
      SaysClosedAppend(s.log.processed, s.events[0], s.entries[j].key);
    }
  }

  lemma {:induction false} DataMarks(s: Net, k: Slot)
    requires Numbered(s) && ConnsPlaced(s) && MarksKept(s) && ClosedRightly(s)
    requires s.events != [] && s.events[0].Data? && SlotOf(s.entries, s.events[0].key) == Some(k)
    ensures MarksKept(RouteHead(s)) && ClosedRightly(RouteHead(s))
  {
    hide MarksKept, ClosedRightly, ConnsPlaced;
    var t := RouteHead(s);
    var e := s.entries[k];
    RoutedShape(s, k);
    SlotAlone(s, k);
    if e.gone.None? && e.queue.None? && |e.inbound| >= RECV_BACKLOG {
      if e.conn.Some? {
        MarkClosed(s, t, k);
      } else {
        MarkSpared(s, t, k);
      }
    } else {
      NoMark(s, t);
    }
  }

  lemma {:induction false} DataInv(s: Net, k: Slot)
    requires Inv(s) && s.events != [] && s.events[0].Data? && SlotOf(s.entries, s.events[0].key) == Some(k)
    ensures Inv(RouteHead(s))
  {
    hide Numbered, InOrder, Tidy, Conserved, ConnsPlaced, MarksKept, ClosedRightly, OffersStand, BacklogsBounded;
    RoutedShape(s, k);
    ShapeKeeps(s, RouteHead(s));
    DataAccounts(s, k);
    AccountsConserve(s, RouteHead(s), [s.events[0]], PushedData(s.entries[k], k, s.events[0]));
    DataTidy(s, k);
    DataMarks(s, k);
  }

  lemma {:induction false} ClosedBalanced(s: Net, k: Slot, j: Slot)
    requires Numbered(s) && Tidy(s) && j in s.entries
    requires s.events != [] && s.events[0].Closed? && SlotOf(s.entries, s.events[0].key) == Some(k)
    ensures var t := RouteHead(s);
      j in t.entries && Balanced(s.entries[j], t.entries[j], j.handle, [s.events[0]], []) && MarkedBy(s, t, j, [s.events[0]])
      && TidyEntry(t, t.entries[j])
  {
    OneEvent(s.events[0], s.entries[j].key);
    SaysClosedAppend(s.log.processed, s.events[0], s.entries[j].key);
    assert TidyEntry(s, s.entries[j]);
    assert j == k || (s.entries[j].key != s.events[0].key && j.handle != k.handle);
  }

  lemma {:induction false} ClosedAccounts(s: Net, k: Slot)
    requires Numbered(s) && Tidy(s) && s.events != [] && s.events[0].Closed? && SlotOf(s.entries, s.events[0].key) == Some(k)
    ensures Accounts(s, RouteHead(s), [s.events[0]], [])
    ensures Tidy(RouteHead(s))
  {
    hide Numbered, Balanced, MarkedBy, TidyEntry;
    var ev := s.events[0];
    var t := RouteHead(s);
    assert s.log.handed + [] == s.log.handed;
    forall j | j in t.entries
      ensures Balanced(s.entries[j], t.entries[j], j.handle, [ev], []) && MarkedBy(s, t, j, [ev]) && TidyEntry(t, t.entries[j])
    {
      ClosedBalanced(s, k, j);
    }
  }

  lemma {:induction false} ClosedMarks(s: Net, k: Slot)
    requires Numbered(s) && ConnsPlaced(s) && MarksKept(s) && ClosedRightly(s)
    requires s.events != [] && s.events[0].Closed? && SlotOf(s.entries, s.events[0].key) == Some(k)
    ensures MarksKept(RouteHead(s)) && ClosedRightly(RouteHead(s))
  {
    hide MarksKept, ClosedRightly, ConnsPlaced;
    RoutedShape(s, k);
    SlotAlone(s, k);
    if s.entries[k].gone.None? {
      MarkSpared(s, RouteHead(s), k);
    } else {
      NoMark(s, RouteHead(s));
    }
  }

  lemma {:induction false} ClosedInv(s: Net, k: Slot)
    requires Inv(s) && s.events != [] && s.events[0].Closed? && SlotOf(s.entries, s.events[0].key) == Some(k)
    ensures Inv(RouteHead(s))
  {
    hide Numbered, InOrder, Tidy, Conserved, ConnsPlaced, MarksKept, ClosedRightly, OffersStand, BacklogsBounded;
    RoutedShape(s, k);
    ShapeKeeps(s, RouteHead(s));
    ClosedAccounts(s, k);
    AccountsConserve(s, RouteHead(s), [s.events[0]], []);
    ClosedMarks(s, k);
  }

  // ----- new entries -----

  /** An entry under a new number and a key nothing has been reported for. */
  ghost predicate Brings(s: Net, t: Net, k: Slot, e: Entry) {
    && k.handle == s.nextHandle && t.nextHandle == s.nextHandle + 1
    && t.entries == s.entries[k := e]
    && t.log.keyOf == s.log.keyOf[k.handle := e.key]
    && t.log.handed == s.log.handed
    && s.nextKey <= t.nextKey && e.key < t.nextKey
    && (forall h :: h in s.log.keyOf ==> s.log.keyOf[h] != e.key)
    && e.inbound == [] && e.gone.None?
    && t.log.closes == s.log.closes && t.log.farGone == s.log.farGone && t.log.stranded == s.log.stranded
    && t.log.refused == s.log.refused && t.offers == s.offers
  }

  lemma {:induction false} BringsNumbers(s: Net, t: Net, k: Slot, e: Entry)
    requires Numbered(s) && Brings(s, t, k, e)
    ensures Numbered(t) && k.handle !in s.log.keyOf
  {
    assert s.nextHandle !in s.log.keyOf;
  }

  lemma {:induction false} BringsData(s: Net, t: Net, k: Slot, e: Entry)
    requires Conserved(s) && Brings(s, t, k, e) && k.handle !in s.log.keyOf
    requires DataOf(t.log.processed, e.key) == []
    ensures HandedTo(t.log.handed, k.handle) == [] && Seen(t, k) == [] && ConservedAt(t, k)
  {
    HandedToNobody(t.log.handed, k.handle);
  }

  lemma {:induction false} BringsConserves(s: Net, t: Net, k: Slot, e: Entry)
    requires Numbered(s) && Conserved(s) && Brings(s, t, k, e)
    requires DataOf(t.log.processed, e.key) == [] && s.log.processed <= t.log.processed
    requires forall key :: DataOf(t.log.processed, key) == DataOf(s.log.processed, key)
    ensures Numbered(t) && Conserved(t)
  {
    hide Numbered, ConservedAt;
    BringsNumbers(s, t, k, e);
    BringsData(s, t, k, e);
    forall j | j in t.entries
      ensures ConservedAt(t, j)
    {
      if j != k {
        ConservedStays(s, t, j, j);
      }
    }
  }

  lemma {:induction false} BringsOffers(s: Net, t: Net, k: Slot, e: Entry)
    requires Numbered(s) && OffersStand(s) && Brings(s, t, k, e)
    ensures OffersStand(t)
  {
    assert k.handle !in s.log.keyOf;
    forall h | h in t.log.refused
      ensures !Held(t, h)
    {
      assert !Held(s, h);
    }
  }

  lemma {:induction false} BringsMarks(s: Net, t: Net, k: Slot, e: Entry)
    requires Numbered(s) && MarksKept(s) && Brings(s, t, k, e)
    ensures MarksKept(t)
  {
    assert k.handle !in s.log.keyOf;
  }

  // ----- an arrival -----

  lemma {:induction false} PendingAfterHead(s: Net, t: Net)
    requires ConnsPlaced(s) && s.events != [] && s.events[0].Accepted? && t.events == s.events[1..]
    ensures forall c :: ArrivalPending(t, c) <==> ArrivalPending(s, c) && c != s.events[0].conn
  {
    forall c | ArrivalPending(s, c) && c != s.events[0].conn
      ensures ArrivalPending(t, c)
    {
      var i :| 0 <= i < |s.events| && s.events[i].Accepted? && s.events[i].conn == c;
      assert t.events[i - 1] == s.events[i];
    }
    forall c | ArrivalPending(t, c)
      ensures ArrivalPending(s, c) && c != s.events[0].conn
    {
      var i :| 0 <= i < |t.events| && t.events[i].Accepted? && t.events[i].conn == c;
      assert s.events[i + 1] == t.events[i];
    }
  }

  lemma {:induction false} HeadIsFresh(s: Net)
    requires InOrder(s) && s.events != [] && s.events[0].Accepted?
    ensures DataOf(s.log.processed, s.events[0].key) == []
    ensures !SaysClosed(s.log.processed, s.events[0].key)
    ensures forall key :: DataOf(s.log.processed + [s.events[0]], key) == DataOf(s.log.processed, key)
    ensures forall key :: SaysClosed(s.log.processed + [s.events[0]], key) <==> SaysClosed(s.log.processed, key)
  {
    var r := Reports(s);
    var n := |s.log.processed|;
    assert r[n] == s.events[0];
    forall i | 0 <= i < n
      ensures s.log.processed[i].key != s.events[0].key
    {
      assert r[i] == s.log.processed[i];
    }
    NoDataFor(s.log.processed, s.events[0].key);
    forall key
      ensures DataOf(s.log.processed + [s.events[0]], key) == DataOf(s.log.processed, key)
      ensures SaysClosed(s.log.processed + [s.events[0]], key) <==> SaysClosed(s.log.processed, key)
    {
      OneEvent(s.events[0], key);
      DataAppend(s.log.processed, [s.events[0]], key);
      SaysClosedAppend(s.log.processed, s.events[0], key);
    }
  }

  /** Nobody to accept it: the arrival's Conn is closed at once. */
  ghost predicate TurnsAway(s: Net, t: Net) {
    && s.events != [] && s.events[0].Accepted?
    && t == s.(events := s.events[1..],
               log := s.log.(closes := s.log.closes + [s.events[0].conn], processed := s.log.processed + [s.events[0]]))
  }

  lemma {:induction false} TurnedAwayMarks(s: Net, t: Net)
    requires ConnsPlaced(s) && MarksKept(s) && ClosedRightly(s) && TurnsAway(s, t)
    ensures MarksKept(t) && ClosedRightly(t)
  {
    PendingAfterHead(s, t);
    var c := s.events[0].conn;
    assert ArrivalPending(s, c);
    assert c !in s.log.closes;
    assert forall x :: x in t.log.closes <==> x in s.log.closes || x == c;
    assert forall h :: Held(t, h) <==> Held(s, h);
    assert forall h :: Spared(t, h) <==> Spared(s, h);
    assert ClosedOnce(t) && ClosedHeld(t) && ClosedLeft(t) && ClosedUnheld(t);
  }

  lemma {:induction false} TurnedAwayInv(s: Net, t: Net)
    requires Inv(s) && TurnsAway(s, t)
    ensures Inv(t)
  {
    hide Numbered, InOrder, Tidy, Conserved, ConnsPlaced, MarksKept, ClosedRightly, OffersStand, BacklogsBounded;
    assert s.events == [s.events[0]] + s.events[1..];
    assert Reports(t) == Reports(s);
    ShapeKeeps(s, t);
    TurnedAwayData(s, t);
    TurnedAwayMarks(s, t);
  }

  lemma {:induction false} TurnedAwayData(s: Net, t: Net)
    requires InOrder(s) && Tidy(s) && Conserved(s) && TurnsAway(s, t)
    ensures Tidy(t) && Conserved(t)
  {
    HeadIsFresh(s);
    forall k | k in t.entries
      ensures TidyEntry(t, t.entries[k]) && ConservedAt(t, k)
    {
      assert TidyEntry(s, s.entries[k]) && ConservedAt(s, k);
      ConservedStays(s, t, k, k);
    }
  }

  /** The arrival becomes an entry of the listener's owner. */
  ghost predicate TakesIn(s: Net, t: Net, k: Slot, e: Entry) {
    && s.events != [] && s.events[0].Accepted? && t.events == s.events[1..]
    && t.log.processed == s.log.processed + [s.events[0]]
    && Brings(s, t, k, e) && t.nextKey == s.nextKey
    && e.key == s.events[0].key && e.conn == Some(s.events[0].conn) && !e.listener
    && t.log.holder == s.log.holder[s.events[0].conn := k.handle]
    && t.log.seen == s.log.seen && t.log.opening == s.log.opening
    && (e.waiting.Some? ==> e.queue.None? && |WaitingUnder(s.entries, k.owner, e.waiting.value)| < ACCEPT_BACKLOG)
  }

  lemma {:induction false} TakenInOrder(s: Net, t: Net, k: Slot, e: Entry)
    requires Numbered(s) && InOrder(s) && TakesIn(s, t, k, e)
    ensures InOrder(t)
  {
    assert s.events == [s.events[0]] + s.events[1..];
    var r := Reports(s);
    assert Reports(t) == r;
    var n := |s.log.processed|;
    forall i, h | 0 <= i < |t.events| && t.events[i].Accepted? && h in t.log.keyOf
      ensures t.log.keyOf[h] != t.events[i].key
    {
      assert r[n] == s.events[0] && r[n + i + 1] == t.events[i] == s.events[i + 1];
    }
  }

  lemma {:induction false} TakenInPlaced(s: Net, t: Net, k: Slot, e: Entry)
    requires Numbered(s) && ConnsPlaced(s) && TakesIn(s, t, k, e)
    ensures ConnsPlaced(t)
  {
    assert k.handle !in s.log.keyOf;
    var c := s.events[0].conn;
    assert c !in s.log.holder && c in s.log.seen;
    forall j | j in t.entries && t.entries[j].conn.Some?
      ensures t.entries[j].conn.value in t.log.holder && t.log.holder[t.entries[j].conn.value] == j.handle
    {
      assert j != k ==> s.entries[j].conn.value in s.log.holder;
    }
    forall i | 0 <= i < |t.events| && t.events[i].Accepted?
      ensures t.events[i].conn in t.log.seen && t.events[i].conn !in t.log.holder
    {
      assert s.events[i + 1] == t.events[i];
    }
    forall i, j | 0 <= i < j < |t.events| && t.events[i].Accepted? && t.events[j].Accepted?
      ensures t.events[i].conn != t.events[j].conn
    {
      assert s.events[i + 1] == t.events[i] && s.events[j + 1] == t.events[j];
    }
  }

  lemma {:induction false} TakenInCloses(s: Net, t: Net, k: Slot, e: Entry)
    requires Numbered(s) && ConnsPlaced(s) && MarksKept(s) && ClosedRightly(s) && TakesIn(s, t, k, e)
    ensures ClosedRightly(t)
  {
    assert k.handle !in s.log.keyOf;
    PendingAfterHead(s, t);
    var c := s.events[0].conn;
    assert ArrivalPending(s, c);
    assert c !in s.log.closes;
    assert forall h :: Spared(t, h) <==> Spared(s, h);
    assert forall h :: h != k.handle ==> (Held(t, h) <==> Held(s, h));
    assert ClosedOnce(t);
    forall j | j in t.entries && t.entries[j].conn.Some?
      ensures t.entries[j].conn.value in t.log.closes <==> t.entries[j].gone.Some? && !Spared(t, j.handle)
    {
    }
    assert Held(t, k.handle);
    assert ClosedLeft(t);
    assert ClosedUnheld(t);
  }

  lemma {:induction false} TakenInBounded(s: Net, t: Net, k: Slot, e: Entry)
    requires Numbered(s) && BacklogsBounded(s) && TakesIn(s, t, k, e)
    ensures BacklogsBounded(t)
  {
    forall owner, listener: nat
      ensures |WaitingUnder(t.entries, owner, listener)| <= ACCEPT_BACKLOG
    {
      OneMoreWaits(s.entries, k, e, owner, listener);
    }
  }

  lemma {:induction false} OneMoreWaits(entries: map<Slot, Entry>, k: Slot, e: Entry, owner: Caller, listener: nat)
    ensures |WaitingUnder(entries[k := e], owner, listener)|
         <= |WaitingUnder(entries, owner, listener)| + if owner == k.owner && e.waiting == Some(listener) then 1 else 0
  {
    var before, after := WaitingUnder(entries, owner, listener), WaitingUnder(entries[k := e], owner, listener);
    if owner == k.owner && e.waiting == Some(listener) {
      SubsetSize(after, before + {k});
    } else {
      SubsetSize(after, before);
    }
  }

  lemma {:induction false} TakenInInv(s: Net, t: Net, k: Slot, e: Entry)
    requires Inv(s) && TakesIn(s, t, k, e)
    ensures Inv(t)
  {
    hide Numbered, InOrder, Tidy, Conserved, ConnsPlaced, MarksKept, ClosedRightly, OffersStand, BacklogsBounded;
    HeadIsFresh(s);
    BringsConserves(s, t, k, e);
    BringsOffers(s, t, k, e);
    BringsMarks(s, t, k, e);
    TakenInOrder(s, t, k, e);
    TakenInPlaced(s, t, k, e);
    TakenInCloses(s, t, k, e);
    TakenInBounded(s, t, k, e);
    TakenInTidy(s, t, k, e);
  }

  lemma {:induction false} TakenInTidy(s: Net, t: Net, k: Slot, e: Entry)
    requires Numbered(s) && InOrder(s) && Tidy(s) && TakesIn(s, t, k, e)
    ensures Tidy(t)
  {
    HeadIsFresh(s);
    forall j | j in t.entries
      ensures TidyEntry(t, t.entries[j])
    {
      assert j != k ==> TidyEntry(s, s.entries[j]);
    }
  }

  lemma {:induction false} AcceptedInv(s: Net)
    requires Inv(s) && s.events != [] && s.events[0].Accepted?
    ensures Inv(RouteHead(s))
  {
    hide Numbered, InOrder, Tidy, Conserved, ConnsPlaced, MarksKept, ClosedRightly, OffersStand, BacklogsBounded;
    var ev := s.events[0];
    var u := s.(events := s.events[1..]);
    var t := RouteHead(s);
    match SlotOf(s.entries, ev.listener)
    case None =>
      TurnedAwayInv(s, t);
    case Some(l) =>
      var e := s.entries[l];
      if !e.listener || e.gone.Some? || (e.queue.None? && |WaitingUnder(s.entries, l.owner, l.handle)| >= ACCEPT_BACKLOG) {
        TurnedAwayInv(s, t);
      } else {
        HeadKeyFree(s);
        TakenInInv(s, t, Slot(l.owner, s.nextHandle), Arrived(ev, l, e.queue));
      }
  }

  lemma {:induction false} HeadKeyFree(s: Net)
    requires InOrder(s) && s.events != [] && s.events[0].Accepted?
    ensures s.events[0].key < s.nextKey
    ensures forall h :: h in s.log.keyOf ==> s.log.keyOf[h] != s.events[0].key
  {
    assert Reports(s)[|s.log.processed|] == s.events[0];
  }

  lemma {:induction false} RouteInv(s: Net)
    requires Inv(s) && s.events != []
    ensures Inv(RouteHead(s))
  {
    hide Inv;
    if s.events[0].Accepted? {
      AcceptedInv(s);
    } else {
      match SlotOf(s.entries, s.events[0].key)
      case None => UnclaimedInv(s);
      case Some(k) =>
        if s.events[0].Data? { DataInv(s, k); } else { ClosedInv(s, k); }
    }
  }

  lemma {:induction false} SweepInv(s: Net)
    requires Inv(s)
    ensures Inv(Sweep(s)) && Sweep(s).events == []
    decreases |s.events|
  {
    hide Inv;
    if s.events != [] {
      RouteInv(s);
      HeadReports(s);
      SweepInv(RouteHead(s));
    }
  }

  /** Nothing swept, nothing handed out; entries may leave or gain a Conn. */
  ghost predicate Calm(s: Net, t: Net) {
    && t.log.processed == s.log.processed && t.log.handed == s.log.handed && t.log.keyOf == s.log.keyOf
    && t.log.farGone == s.log.farGone
    && (forall k :: k in t.entries ==> k in s.entries && CalmEntry(s.entries[k], t.entries[k]))
  }

  predicate CalmEntry(e: Entry, f: Entry) {
    f == e.(conn := f.conn) && (e.conn.Some? ==> f.conn.Some?)
  }

  lemma {:induction false} CalmKeeps(s: Net, t: Net)
    requires Tidy(s) && Conserved(s) && BacklogsBounded(s) && Calm(s, t)
    ensures Tidy(t) && Conserved(t) && BacklogsBounded(t)
  {
    forall k | k in t.entries
      ensures TidyEntry(t, t.entries[k]) && ConservedAt(t, k)
    {
      assert TidyEntry(s, s.entries[k]) && ConservedAt(s, k);
      ConservedStays(s, t, k, k);
    }
    WaitingShrinks(s, t);
  }

  /** Entries may leave; calls may be answered, Conns may become known. */
  ghost predicate Shrinks(s: Net, t: Net) {
    && (forall k :: k in t.entries ==> k in s.entries && t.entries[k] == s.entries[k])
    && t.events == s.events && t.log.processed == s.log.processed
    && t.nextHandle == s.nextHandle && t.nextKey == s.nextKey
    && t.log.keyOf == s.log.keyOf && t.log.holder == s.log.holder
    && s.log.seen <= t.log.seen && t.log.opening <= s.log.opening
  }

  lemma {:induction false} ShrinksPlaced(s: Net, t: Net)
    requires Numbered(s) && InOrder(s) && ConnsPlaced(s) && Shrinks(s, t)
    ensures Numbered(t) && InOrder(t) && ConnsPlaced(t)
  {
    assert Reports(t) == Reports(s);
  }

  // ----- opening -----

  lemma {:induction false} FreshKeyUnheard(s: Net)
    requires Numbered(s) && InOrder(s)
    ensures DataOf(s.log.processed, s.nextKey) == [] && !SaysClosed(s.log.processed, s.nextKey)
    ensures forall i :: 0 <= i < |s.events| ==> s.events[i].key != s.nextKey
    ensures forall h :: h in s.log.keyOf ==> s.log.keyOf[h] != s.nextKey
  {
    var r := Reports(s);
    forall i | 0 <= i < |s.log.processed|
      ensures s.log.processed[i].key != s.nextKey
    {
      assert r[i] == s.log.processed[i];
    }
    forall i | 0 <= i < |s.events|
      ensures s.events[i].key != s.nextKey
    {
      assert r[|s.log.processed| + i] == s.events[i];
    }
    NoDataFor(s.log.processed, s.nextKey);
  }

  lemma {:induction false} BeginInv(s: Net, caller: Caller, e: Entry)
    requires Inv(s)
    requires e.key == s.nextKey && e.conn.None? && e.inbound == [] && e.waiting.None? && e.gone.None?
    ensures Inv(Begin(s, caller, e))
  {
    var t := Begin(s, caller, e);
    var k := Slot(caller, s.nextHandle);
    FreshKeyUnheard(s);
    BringsConserves(s, t, k, e);
    BringsOffers(s, t, k, e);
    BringsMarks(s, t, k, e);
    BeginPlaced(s, caller, e);
    BeginCloses(s, caller, e);
    BeginTidy(s, caller, e);
    WaitingShrinks(s, t);
  }

  lemma {:induction false} BeginTidy(s: Net, caller: Caller, e: Entry)
    requires Numbered(s) && InOrder(s) && Tidy(s)
    requires e.key == s.nextKey && e.inbound == [] && e.waiting.None?
    ensures InOrder(Begin(s, caller, e)) && Tidy(Begin(s, caller, e))
  {
    var t := Begin(s, caller, e);
    FreshKeyUnheard(s);
    assert Reports(t) == Reports(s);
    assert forall j :: j in t.entries && j != Slot(caller, s.nextHandle) ==> TidyEntry(s, s.entries[j]);
  }

  lemma {:induction false} BeginPlaced(s: Net, caller: Caller, e: Entry)
    requires Numbered(s) && ConnsPlaced(s) && e.conn.None?
    ensures ConnsPlaced(Begin(s, caller, e))
  {
    assert s.nextHandle !in s.log.keyOf;
  }

  lemma {:induction false} BeginCloses(s: Net, caller: Caller, e: Entry)
    requires Numbered(s) && ConnsPlaced(s) && ClosedRightly(s) && e.conn.None?
    ensures ClosedRightly(Begin(s, caller, e))
  {
    var t := Begin(s, caller, e);
    assert s.nextHandle !in s.log.keyOf;
    assert forall h :: Spared(t, h) <==> Spared(s, h);
    assert forall h :: h != s.nextHandle ==> (Held(t, h) <==> Held(s, h));
    PendingKept(s, t);
    assert ClosedOnce(t) && ClosedHeld(t) && ClosedLeft(t) && ClosedUnheld(t);
  }

  // ----- the transport's answer -----

  /** The answer reached the entry made before asking. */
  lemma {:induction false} AnsweredInv(s: Net, k: Slot, c: Conn)
    requires Inv(s) && k in s.log.opening && c !in s.log.seen && k in s.entries
    ensures Inv(Settle(s, k.owner, k.handle, Ok(c)))
  {
    hide Numbered, InOrder, Tidy, Conserved, ConnsPlaced, MarksKept, ClosedRightly, OffersStand, BacklogsBounded;
    var t := Settle(s, k.owner, k.handle, Ok(c));
    AnsweredCalm(s, k, c);
    AnswerIsIn(s, k, c);
    AnsweredPlaced(s, t, k, c);
    AnsweredCloses(s, t, k, c);
  }

  lemma {:induction false} AnsweredCalm(s: Net, k: Slot, c: Conn)
    requires Numbered(s) && InOrder(s) && Tidy(s) && Conserved(s) && BacklogsBounded(s) && OffersStand(s) && k in s.entries
    ensures var t := Settle(s, k.owner, k.handle, Ok(c));
      Numbered(t) && InOrder(t) && Tidy(t) && Conserved(t) && BacklogsBounded(t) && OffersStand(t)
  {
    hide Tidy, Conserved, BacklogsBounded, OffersStand;
    var t := Settle(s, k.owner, k.handle, Ok(c));
    CalmKeeps(s, t);
    AnsweredOffers(s, t);
    assert Reports(t) == Reports(s);
  }

  lemma {:induction false} AnsweredOffers(s: Net, t: Net)
    requires OffersStand(s) && Calm(s, t) && t.entries.Keys == s.entries.Keys && t.offers == s.offers
    requires t.log.refused == s.log.refused
    ensures OffersStand(t)
  {
    assert forall h :: Held(t, h) <==> Held(s, h);
    assert forall j :: Mine(s, j) <==> Mine(t, j);
  }

  lemma {:induction false} AnsweredUnheld(s: Net, k: Slot, c: Conn)
    requires ConnsPlaced(s) && k in s.log.opening && c !in s.log.seen && k in s.entries
    ensures s.entries[k].conn.None? && c !in s.log.holder
    ensures forall x :: x in s.log.holder ==> s.log.holder[x] != k.handle
  {
  }

  /** `t` differs from `s` in `k` having its Conn. */
  ghost predicate Answers(s: Net, t: Net, k: Slot, c: Conn) {
    && k in s.entries && s.entries[k].conn.None? && c !in s.log.holder && c !in s.log.seen
    && t.entries == s.entries[k := s.entries[k].(conn := Some(c))]
    && t.log.holder == s.log.holder[c := k.handle] && t.log.seen == s.log.seen + {c}
    && t.log.opening == s.log.opening - {k} && t.log.keyOf == s.log.keyOf && t.log.closes == s.log.closes
    && t.log.farGone == s.log.farGone && t.log.stranded == s.log.stranded
    && t.events == s.events && t.nextHandle == s.nextHandle
    && (forall x :: x in s.log.holder ==> s.log.holder[x] != k.handle)
    && (forall j :: j in s.entries && j != k ==> j.handle != k.handle)
  }

  lemma AnswerIsIn(s: Net, k: Slot, c: Conn)
    requires Numbered(s) && ConnsPlaced(s) && k in s.log.opening && c !in s.log.seen && k in s.entries
    ensures Answers(s, Settle(s, k.owner, k.handle, Ok(c)), k, c) && k.handle in s.log.keyOf
  {
    AnsweredUnheld(s, k, c);
    SlotAlone(s, k);
  }

  lemma {:induction false} AnsweredPlaced(s: Net, t: Net, k: Slot, c: Conn)
    requires ConnsPlaced(s) && k in s.log.opening && Answers(s, t, k, c) && k.handle in s.log.keyOf
    ensures ConnsPlaced(t)
  {
    assert forall j :: j in t.log.opening ==> j.handle != k.handle;
    assert forall j :: j in s.entries && j != k ==> t.entries[j] == s.entries[j];
  }

  lemma {:induction false} AnsweredCloses(s: Net, t: Net, k: Slot, c: Conn)
    requires ConnsPlaced(s) && MarksKept(s) && ClosedRightly(s) && Answers(s, t, k, c)
    ensures MarksKept(t) && ClosedRightly(t)
  {
    assert c !in s.log.closes;
    assert forall h :: Held(t, h) <==> Held(s, h);
    assert forall h :: Spared(t, h) <==> Spared(s, h);
    PendingKept(s, t);
    assert ClosedOnce(t) && ClosedHeld(t);
    assert Held(t, k.handle);
    assert ClosedLeft(t);
    assert ClosedUnheld(t);
  }

  /** The answer found no entry: its Conn is closed at once. */
  lemma {:induction false} OrphanInv(s: Net, k: Slot, c: Conn)
    requires Inv(s) && k in s.log.opening && c !in s.log.seen && k !in s.entries
    ensures Inv(Settle(s, k.owner, k.handle, Ok(c)))
  {
    hide Numbered, InOrder, Tidy, Conserved, ConnsPlaced, MarksKept, ClosedRightly, OffersStand, BacklogsBounded;
    var t := Settle(s, k.owner, k.handle, Ok(c));
    CalmKeeps(s, t);
    ShrinksPlaced(s, t);
    OrphanCloses(s, k, c);
    AnsweredOffers(s, t);
  }

  lemma {:induction false} OrphanCloses(s: Net, k: Slot, c: Conn)
    requires ConnsPlaced(s) && MarksKept(s) && ClosedRightly(s) && c !in s.log.seen && k !in s.entries
    ensures MarksKept(Settle(s, k.owner, k.handle, Ok(c))) && ClosedRightly(Settle(s, k.owner, k.handle, Ok(c)))
  {
    var t := Settle(s, k.owner, k.handle, Ok(c));
    PendingKept(s, t);
    assert c !in s.log.closes && c !in s.log.holder;
    assert forall x :: x in t.log.closes <==> x in s.log.closes || x == c;
    assert forall h :: Held(t, h) <==> Held(s, h);
    assert forall h :: Spared(t, h) <==> Spared(s, h);
    assert ClosedOnce(t) && ClosedHeld(t) && ClosedLeft(t) && ClosedUnheld(t);
  }

  lemma {:induction false} RefusedInv(s: Net, k: Slot, why: string)
    requires Inv(s) && k in s.log.opening
    ensures Inv(Settle(s, k.owner, k.handle, Err(why)))
  {
    hide Numbered, InOrder, Tidy, Conserved, ConnsPlaced, MarksKept, ClosedRightly, OffersStand, BacklogsBounded;
    var t := Settle(s, k.owner, k.handle, Err(why));
    CalmKeeps(s, t);
    ShrinksPlaced(s, t);
    RefusedCloses(s, k, why);
    RefusedOffers(s, k, why);
  }

  lemma {:induction false} RefusedCloses(s: Net, k: Slot, why: string)
    requires Numbered(s) && ConnsPlaced(s) && MarksKept(s) && ClosedRightly(s) && k in s.log.opening
    ensures MarksKept(Settle(s, k.owner, k.handle, Err(why))) && ClosedRightly(Settle(s, k.owner, k.handle, Err(why)))
  {
    var t := Settle(s, k.owner, k.handle, Err(why));
    PendingKept(s, t);
    assert forall h :: Spared(t, h) <==> Spared(s, h);
    assert forall h :: h != k.handle ==> (Held(t, h) <==> Held(s, h));
    assert k !in s.entries ==> (Held(t, k.handle) <==> Held(s, k.handle));
    assert ClosedOnce(t) && ClosedHeld(t);
    assert ClosedLeft(t);
    assert ClosedUnheld(t);
  }

  lemma {:induction false} RefusedOffers(s: Net, k: Slot, why: string)
    requires Numbered(s) && OffersStand(s)
    ensures OffersStand(Settle(s, k.owner, k.handle, Err(why)))
  {
    var t := Settle(s, k.owner, k.handle, Err(why));
    forall h | h in t.log.refused
      ensures h in t.log.keyOf && !Held(t, h)
    {
      if h in s.log.refused {
        assert !Held(s, h);
      }
    }
  }

  // ----- reports -----

  lemma {:induction false} ReportInv(s: Net, ev: Event)
    requires Inv(s) && !ev.Accepted? && ev.key < s.nextKey
    ensures Inv(Report(s, ev))
  {
    hide Numbered, InOrder, Tidy, Conserved, ConnsPlaced, MarksKept, ClosedRightly, OffersStand, BacklogsBounded;
    var t := Report(s, ev);
    CalmKeeps(s, t);
    ReportPlaced(s, ev);
    ReportCloses(s, ev);
    AnsweredOffers(s, t);
  }

  lemma {:induction false} ReportPlaced(s: Net, ev: Event)
    requires Numbered(s) && InOrder(s) && ConnsPlaced(s) && !ev.Accepted? && ev.key < s.nextKey
    ensures Numbered(Report(s, ev)) && InOrder(Report(s, ev)) && ConnsPlaced(Report(s, ev))
  {
    assert Reports(Report(s, ev)) == Reports(s) + [ev];
  }

  lemma {:induction false} ReportCloses(s: Net, ev: Event)
    requires MarksKept(s) && ClosedRightly(s) && !ev.Accepted?
    ensures MarksKept(Report(s, ev)) && ClosedRightly(Report(s, ev))
  {
    var t := Report(s, ev);
    PendingAppended(s, t, ev);
    assert forall h :: Held(t, h) <==> Held(s, h);
    assert forall h :: Spared(t, h) <==> Spared(s, h);
    assert ClosedOnce(t) && ClosedHeld(t) && ClosedLeft(t) && ClosedUnheld(t);
  }

  lemma {:induction false} PendingAppended(s: Net, t: Net, ev: Event)
    requires t.events == s.events + [ev]
    ensures forall c :: ArrivalPending(t, c) <==> ArrivalPending(s, c) || (ev.Accepted? && ev.conn == c)
  {
    assert t.events[|s.events|] == ev;
    forall c | ArrivalPending(s, c)
      ensures ArrivalPending(t, c)
    {
      var i :| 0 <= i < |s.events| && s.events[i].Accepted? && s.events[i].conn == c;
      assert t.events[i] == s.events[i];
    }
  }

  lemma {:induction false} ArriveInv(s: Net, listener: nat, c: Conn, peer: string)
    requires Inv(s) && c !in s.log.seen
    ensures Inv(Arrive(s, listener, c, peer))
  {
    hide Numbered, InOrder, Tidy, Conserved, ConnsPlaced, MarksKept, ClosedRightly, OffersStand, BacklogsBounded;
    var t := Arrive(s, listener, c, peer);
    var ev := Accepted(s.nextKey, listener, c, peer);
    CalmKeeps(s, t);
    ArriveCloses(s, t, ev);
    ArrivePlaced(s, t, ev);
    AnsweredOffers(s, t);
  }

  lemma {:induction false} ArriveCloses(s: Net, t: Net, ev: Event)
    requires ConnsPlaced(s) && MarksKept(s) && ClosedRightly(s) && ev.Accepted? && ev.conn !in s.log.seen
    requires t == s.(nextKey := s.nextKey + 1, events := s.events + [ev], log := s.log.(seen := s.log.seen + {ev.conn}))
    ensures MarksKept(t) && ClosedRightly(t)
  {
    PendingAppended(s, t, ev);
    assert ev.conn !in s.log.closes && ev.conn !in s.log.holder;
    assert forall h :: Held(t, h) <==> Held(s, h);
    assert forall h :: Spared(t, h) <==> Spared(s, h);
    assert ClosedOnce(t) && ClosedHeld(t) && ClosedLeft(t) && ClosedUnheld(t);
  }

  lemma {:induction false} ArrivePlaced(s: Net, t: Net, ev: Event)
    requires Numbered(s) && InOrder(s) && ConnsPlaced(s) && ev.Accepted? && ev.key == s.nextKey && ev.conn !in s.log.seen
    requires t == s.(nextKey := s.nextKey + 1, events := s.events + [ev], log := s.log.(seen := s.log.seen + {ev.conn}))
    ensures Numbered(t) && InOrder(t) && ConnsPlaced(t)
  {
    assert Reports(t) == Reports(s) + [ev];
    FreshKeyUnheard(s);
  }

  // ----- handing out -----

  /** One entry hands out `d`, keeps `f.inbound`, and nothing else happens to it. */
  ghost predicate HandsOut(s: Net, t: Net, k: Slot, d: seq<Delivery>) {
    && k in s.entries && SameShape(s, t) && t.events == s.events
    && (forall j :: j in s.entries && j != k ==> t.entries[j] == s.entries[j])
    && t.entries[k].gone == s.entries[k].gone
    && t.log == s.log.(handed := s.log.handed + d)
    && (forall i :: 0 <= i < |d| ==> d[i].handle == k.handle)
    && HandedTo(d, k.handle) + t.entries[k].inbound == s.entries[k].inbound
    && TidyEntry(t, t.entries[k])
  }

  lemma {:induction false} HandsOutAccounts(s: Net, t: Net, k: Slot, d: seq<Delivery>)
    requires Numbered(s) && Tidy(s) && HandsOut(s, t, k, d)
    ensures Accounts(s, t, [], d) && Tidy(t)
  {
    assert s.log.processed + [] == s.log.processed;
    forall j | j in t.entries
      ensures Balanced(s.entries[j], t.entries[j], j.handle, [], d) && MarkedBy(s, t, j, []) && TidyEntry(t, t.entries[j])
    {
      assert DataOf([], s.entries[j].key) == [];
      if j != k {
        assert j.handle != k.handle;
        HandedToNobody(d, j.handle);
        assert TidyEntry(s, s.entries[j]);
      }
    }
    assert Held(t, k.handle);
  }

  lemma {:induction false} HandsOutInv(s: Net, t: Net, k: Slot, d: seq<Delivery>)
    requires Inv(s) && HandsOut(s, t, k, d)
    ensures Inv(t)
  {
    hide Numbered, InOrder, Tidy, Conserved, ConnsPlaced, MarksKept, ClosedRightly, OffersStand, BacklogsBounded;
    assert Reports(t) == Reports(s);
    HandsOutAccounts(s, t, k, d);
    AccountsConserve(s, t, [], d);
    ShapeKeeps(s, t);
    NoMark(s, t);
  }

  lemma {:induction false} RecvHandsOut(s: Net, caller: Caller, handle: nat)
    requires Tidy(s) && RecvLook(s, caller, handle).0 != s
    ensures var k := Slot(caller, handle);
      k in s.entries && s.entries[k].inbound != []
      && HandsOut(s, RecvLook(s, caller, handle).0, k, [Delivery(handle, s.entries[k].inbound[0], caller, None)])
  {
    var k := Slot(caller, handle);
    OneDelivery(Delivery(handle, s.entries[k].inbound[0], caller, None), handle);
    assert TidyEntry(s, s.entries[k]);
  }

  lemma {:induction false} RecvLookInv(s: Net, caller: Caller, handle: nat)
    requires Inv(s)
    ensures Inv(RecvLook(s, caller, handle).0)
  {
    if RecvLook(s, caller, handle).0 != s {
      RecvHandsOut(s, caller, handle);
      hide Inv;
      HandsOutInv(s, RecvLook(s, caller, handle).0, Slot(caller, handle), [Delivery(handle, s.entries[Slot(caller, handle)].inbound[0], caller, None)]);
    }
  }

  /** What adopting an entry hands out. */
  function AdoptedOut(s: Net, k: Slot, queue: Option<string>): seq<Delivery>
    requires k in s.entries
  {
    if queue.None? then [] else Deliveries(k, queue, s.entries[k].inbound)
  }

  lemma {:induction false} AdoptHandsOut(s: Net, k: Slot, queue: Option<string>, vital: bool)
    requires Tidy(s) && k in s.entries
    ensures HandsOut(s, Adopt(s, k, queue, vital), k, AdoptedOut(s, k, queue))
  {
    if queue.None? {
      AdoptKeeps(s, k, vital);
    } else {
      AdoptFlushes(s, k, queue, vital);
    }
  }

  lemma AdoptKeeps(s: Net, k: Slot, vital: bool)
    requires Tidy(s) && k in s.entries
    ensures HandsOut(s, Adopt(s, k, None, vital), k, [])
  {
    assert TidyEntry(s, s.entries[k]);
    assert HandedTo([], k.handle) == [];
    assert s.log.handed + [] == s.log.handed;
  }

  lemma AdoptFlushes(s: Net, k: Slot, queue: Option<string>, vital: bool)
    requires Tidy(s) && k in s.entries && queue.Some?
    ensures HandsOut(s, Adopt(s, k, queue, vital), k, Deliveries(k, queue, s.entries[k].inbound))
  {
    assert TidyEntry(s, s.entries[k]);
    DeliveriesTo(k, queue, s.entries[k].inbound);
    DeliveriesNamed(k, queue, s.entries[k].inbound);
  }

  lemma {:induction false} AdoptInv(s: Net, k: Slot, queue: Option<string>, vital: bool)
    requires Inv(s) && k in s.entries
    ensures Inv(Adopt(s, k, queue, vital))
  {
    AdoptHandsOut(s, k, queue, vital);
    hide Inv;
    HandsOutInv(s, Adopt(s, k, queue, vital), k, AdoptedOut(s, k, queue));
  }

  lemma {:induction false} AcceptLookInv(s: Net, caller: Caller, listener: nat, queue: Option<string>, vital: bool)
    requires Inv(s)
    ensures Inv(AcceptLook(s, caller, listener, queue, vital).0)
  {
    hide Inv;
    var t := AcceptLook(s, caller, listener, queue, vital).0;
    if t != s {
      AdoptInv(s, Slot(caller, OldestWaiting(s, caller, listener).value), queue, vital);
    }
  }

  // ----- offers -----

  ghost predicate OneEach(offers: seq<Offer>) {
    forall i, j :: 0 <= i < j < |offers| ==> offers[i].from != offers[j].from || offers[i].handle != offers[j].handle
  }

  lemma {:induction false} WithoutExact(offers: seq<Offer>, from: Caller, handle: nat)
    ensures forall o :: o in Without(offers, from, handle) <==> o in offers && !(o.from == from && o.handle == handle)
    ensures OneEach(offers) ==> OneEach(Without(offers, from, handle))
  {
    if offers != [] {
      WithoutExact(offers[1..], from, handle);
      assert offers == [offers[0]] + offers[1..];
      var rest := Without(offers[1..], from, handle);
      if OneEach(offers) {
        assert OneEach(offers[1..]);
        forall j | 0 <= j < |rest|
          ensures offers[0].from != rest[j].from || offers[0].handle != rest[j].handle
        {
          assert rest[j] in offers[1..];
        }
      }
    }
  }

  lemma {:induction false} WithoutPartyExact(offers: seq<Offer>, who: Caller)
    ensures forall o :: o in WithoutParty(offers, who) <==> o in offers && o.from != who && o.to != who
    ensures OneEach(offers) ==> OneEach(WithoutParty(offers, who))
  {
    if offers != [] {
      WithoutPartyExact(offers[1..], who);
      assert offers == [offers[0]] + offers[1..];
      var rest := WithoutParty(offers[1..], who);
      if OneEach(offers) {
        assert OneEach(offers[1..]);
        forall j | 0 <= j < |rest|
          ensures offers[0].from != rest[j].from || offers[0].handle != rest[j].handle
        {
          assert rest[j] in offers[1..];
        }
      }
    }
  }

  lemma {:induction false} TransferInv(s: Net, caller: Caller, handle: nat, to: Caller)
    requires Inv(s)
    ensures Inv(Transfer(s, caller, handle, to).0)
  {
    TransferOffers(s, caller, handle, to);
    OffersOnly(s, Transfer(s, caller, handle, to).0);
  }

  /** Only the offers and what is waiting to be fetched changed. */
  ghost predicate SameTable(s: Net, t: Net) {
    t == s.(offers := t.offers, ended := t.ended, pushes := t.pushes)
  }

  lemma {:induction false} SameTableCloses(s: Net, t: Net)
    requires ConnsPlaced(s) && MarksKept(s) && ClosedRightly(s) && SameTable(s, t)
    ensures ConnsPlaced(t) && MarksKept(t) && ClosedRightly(t)
  {
    PendingKept(s, t);
    assert forall h :: Held(t, h) <==> Held(s, h);
    assert forall h :: Spared(t, h) <==> Spared(s, h);
    assert ClosedOnce(t) && ClosedHeld(t) && ClosedLeft(t) && ClosedUnheld(t);
  }

  lemma {:induction false} OffersOnly(s: Net, t: Net)
    requires Inv(s) && SameTable(s, t) && OffersStand(t)
    ensures Inv(t)
  {
    assert Reports(t) == Reports(s);
    CalmKeeps(s, t);
    SameTableCloses(s, t);
  }

  lemma {:induction false} TransferOffers(s: Net, caller: Caller, handle: nat, to: Caller)
    requires OffersStand(s)
    ensures OffersStand(Transfer(s, caller, handle, to).0)
  {
    var t := Transfer(s, caller, handle, to).0;
    WithoutExact(s.offers, caller, handle);
    assert OneEach(s.offers);
    assert forall h :: Held(t, h) <==> Held(s, h);
    assert forall j :: Mine(t, j) <==> Mine(s, j);
    if t != s {
      var kept := Without(s.offers, caller, handle);
      forall i, j | 0 <= i < j < |t.offers|
        ensures t.offers[i].from != t.offers[j].from || t.offers[i].handle != t.offers[j].handle
      {
        if j == |kept| {
          assert kept[i] in kept;
        }
      }
    }
  }

  // ----- claiming -----

  /** The claimed entry under its new owner, before the claimant's declarations. */
  ghost predicate Moves(s: Net, t: Net, i: nat, to: Slot) {
    && i < |s.offers| && to.handle == s.offers[i].handle
    && var from := Slot(s.offers[i].from, s.offers[i].handle);
      && from in s.entries
      && t == s.(offers := s.offers[..i] + s.offers[i + 1..], entries := (s.entries - {from})[to := s.entries[from]])
  }

  lemma {:induction false} MovedEntries(s: Net, t: Net, i: nat, to: Slot)
    requires Numbered(s) && Moves(s, t, i, to)
    ensures var from := Slot(s.offers[i].from, s.offers[i].handle);
      && (forall k :: k in t.entries && k != to ==> k in s.entries && k != from && t.entries[k] == s.entries[k] && k.handle != to.handle)
      && (forall k :: k in s.entries && k != from ==> k in t.entries && k != to)
      && t.entries[to] == s.entries[from]
      && (forall h :: Held(t, h) <==> Held(s, h))
  {
    var from := Slot(s.offers[i].from, s.offers[i].handle);
    forall k | k in s.entries && k != from
      ensures k in t.entries && k != to
    {
      assert k.handle != from.handle;
    }
    forall h | Held(s, h)
      ensures Held(t, h)
    {
      var k :| k in s.entries && k.handle == h;
      assert if k == from then to in t.entries else k in t.entries;
    }
    forall h | Held(t, h)
      ensures Held(s, h)
    {
      var k :| k in t.entries && k.handle == h;
      assert if k == to then from in s.entries else k in s.entries;
    }
  }

  lemma {:induction false} MovedNumbers(s: Net, t: Net, i: nat, to: Slot)
    requires Numbered(s) && InOrder(s) && Moves(s, t, i, to)
    ensures Numbered(t) && InOrder(t)
  {
    MovedEntries(s, t, i, to);
    assert Reports(t) == Reports(s);
  }

  lemma {:induction false} MovedData(s: Net, t: Net, i: nat, to: Slot)
    requires Numbered(s) && Tidy(s) && Conserved(s) && BacklogsBounded(s) && Moves(s, t, i, to)
    requires Mine(s, Slot(s.offers[i].from, s.offers[i].handle))
    ensures Tidy(t) && Conserved(t) && BacklogsBounded(t)
  {
    MovedEntries(s, t, i, to);
    var from := Slot(s.offers[i].from, s.offers[i].handle);
    forall k | k in t.entries
      ensures TidyEntry(t, t.entries[k]) && ConservedAt(t, k)
    {
      var k' := if k == to then from else k;
      assert TidyEntry(s, s.entries[k']) && ConservedAt(s, k');
      ConservedStays(s, t, k', k);
    }
    WaitingShrinks(s, t);
  }

  lemma {:induction false} MovedConns(s: Net, t: Net, i: nat, to: Slot)
    requires Numbered(s) && ConnsPlaced(s) && MarksKept(s) && ClosedRightly(s) && Moves(s, t, i, to)
    ensures ConnsPlaced(t) && MarksKept(t) && ClosedRightly(t)
  {
    MovedEntries(s, t, i, to);
    PendingKept(s, t);
    assert forall h :: Spared(t, h) <==> Spared(s, h);
    assert ClosedOnce(t) && ClosedHeld(t) && ClosedLeft(t) && ClosedUnheld(t);
  }

  lemma {:induction false} MovedOffers(s: Net, t: Net, i: nat, to: Slot)
    requires Numbered(s) && OffersStand(s) && Moves(s, t, i, to)
    ensures OffersStand(t)
  {
    MovedEntries(s, t, i, to);
    assert Held(s, to.handle);
    forall o | o in t.offers
      ensures Mine(t, Slot(o.from, o.handle)) || o.handle in t.log.refused
      ensures o.from != o.to
    {
      OtherOfferStands(s, t, i, to, o);
    }
    hide Numbered;
    assert OneEach(s.offers) && OneEach(t.offers);
  }

  lemma {:induction false} OtherOfferStands(s: Net, t: Net, i: nat, to: Slot, o: Offer)
    requires Numbered(s) && OffersStand(s) && Moves(s, t, i, to) && o in t.offers
    ensures Mine(t, Slot(o.from, o.handle)) || o.handle in t.log.refused
    ensures o.from != o.to
  {
    MovedEntries(s, t, i, to);
    hide Numbered;
    var from := Slot(s.offers[i].from, s.offers[i].handle);
    var j :| 0 <= j < |s.offers| && j != i && s.offers[j] == o;
    assert s.offers[j] in s.offers;
    if Mine(s, Slot(o.from, o.handle)) {
      assert Slot(o.from, o.handle) != from;
      assert Slot(o.from, o.handle) in t.entries;
    }
  }

  lemma {:induction false} OfferWithdrawn(s: Net, i: nat)
    requires Inv(s) && i < |s.offers|
    ensures Inv(s.(offers := s.offers[..i] + s.offers[i + 1..]))
  {
    var t := s.(offers := s.offers[..i] + s.offers[i + 1..]);
    WithdrawnOffers(s, i);
    OffersOnly(s, t);
  }

  lemma {:induction false} WithdrawnOffers(s: Net, i: nat)
    requires OffersStand(s) && i < |s.offers|
    ensures OffersStand(s.(offers := s.offers[..i] + s.offers[i + 1..]))
  {
    var t := s.(offers := s.offers[..i] + s.offers[i + 1..]);
    assert forall h :: Held(t, h) <==> Held(s, h);
    assert forall j :: Mine(t, j) <==> Mine(s, j);
    assert forall o :: o in t.offers ==> o in s.offers;
  }

  lemma {:induction false} MovedInv(s: Net, t: Net, i: nat, to: Slot)
    requires Inv(s) && Moves(s, t, i, to)
    ensures Inv(t)
  {
    var o := s.offers[i];
    assert o in s.offers;
    assert Held(s, o.handle);
    MovedNumbers(s, t, i, to);
    MovedData(s, t, i, to);
    MovedConns(s, t, i, to);
    MovedOffers(s, t, i, to);
  }

  lemma {:induction false} ClaimInv(s: Net, caller: Caller, named: Option<nat>, queue: Option<string>, vital: bool)
    requires Inv(s)
    ensures Inv(Claim(s, caller, named, queue, vital).0)
  {
    hide Inv;
    match FirstOffer(s.offers, caller, named)
    case None =>
    case Some(i) =>
      var o := s.offers[i];
      var from, to := Slot(o.from, o.handle), Slot(caller, o.handle);
      if from !in s.entries {
        OfferWithdrawn(s, i);
      } else {
        var t := s.(offers := s.offers[..i] + s.offers[i + 1..], entries := (s.entries - {from})[to := s.entries[from]]);
        MovedInv(s, t, i, to);
        AdoptInv(t, to, queue, vital);
      }
  }

  // ----- taking back -----

  lemma {:induction false} ToCloseExact(entries: map<Slot, Entry>, ks: seq<Slot>)
    requires forall k :: k in ks ==> k in entries
    ensures forall c :: c in ConnsToClose(entries, ks)
              <==> exists k :: k in ks && entries[k].gone.None? && entries[k].conn == Some(c)
  {
    if ks != [] {
      ToCloseExact(entries, ks[1..]);
      assert ks == [ks[0]] + ks[1..];
      forall c | c in ConnsToClose(entries, ks)
        ensures exists k :: k in ks && entries[k].gone.None? && entries[k].conn == Some(c)
      {
        if c in ConnsToClose(entries, ks[1..]) {
          var k :| k in ks[1..] && entries[k].gone.None? && entries[k].conn == Some(c);
          assert k in ks;
        } else {
          assert ks[0] in ks && entries[ks[0]].conn == Some(c);
        }
      }
    }
  }

  lemma {:induction false} ToCloseOnce(entries: map<Slot, Entry>, ks: seq<Slot>)
    requires forall k :: k in ks ==> k in entries
    requires Distinct(ks)
    requires forall j, k :: j in ks && k in ks && j != k && entries[j].conn.Some? ==> entries[j].conn != entries[k].conn
    ensures Distinct(ConnsToClose(entries, ks))
  {
    if ks != [] {
      var rest := ConnsToClose(entries, ks[1..]);
      ToCloseOnce(entries, ks[1..]);
      ToCloseExact(entries, ks[1..]);
      forall j | 0 <= j < |rest| && entries[ks[0]].conn.Some?
        ensures rest[j] != entries[ks[0]].conn.value
      {
        assert rest[j] in rest;
        var k :| k in ks[1..] && entries[k].gone.None? && entries[k].conn == Some(rest[j]);
        var i :| 0 <= i < |ks[1..]| && ks[1..][i] == k;
        assert ks[i + 1] == k && ks[0] in ks;
      }
      var e := entries[ks[0]];
      if e.gone.None? && e.conn.Some? {
        var cs := ConnsToClose(entries, ks);
        assert cs == [e.conn.value] + rest;
        forall i, j | 0 <= i < j < |cs|
          ensures cs[i] != cs[j]
        {
          assert cs[j] == rest[j - 1];
          assert i > 0 ==> cs[i] == rest[i - 1];
        }
      } else {
        assert ConnsToClose(entries, ks) == rest;
      }
    }
  }

  /** The slots in `S` left the table, and what they held live was closed. */
  ghost predicate TakesBack(s: Net, t: Net, S: set<Slot>) {
    && S <= s.entries.Keys
    && var u := TakeBack(s, S);
      t == u.(offers := t.offers, ended := t.ended, pushes := t.pushes, log := u.log.(dropped := t.log.dropped))
  }

  lemma {:induction false} TakenBackPlaced(s: Net, t: Net, S: set<Slot>)
    requires Numbered(s) && InOrder(s) && ConnsPlaced(s) && TakesBack(s, t, S)
    ensures Numbered(t) && InOrder(t) && ConnsPlaced(t)
  {
    assert Reports(t) == Reports(s);
  }

  lemma {:induction false} NewlyClosed(s: Net, S: set<Slot>)
    requires Numbered(s) && ConnsPlaced(s) && ClosedRightly(s) && S <= s.entries.Keys
    ensures var cs := ConnsToClose(s.entries, Ascending(S));
      && (forall c :: c in cs <==> exists k :: k in S && s.entries[k].gone.None? && s.entries[k].conn == Some(c))
      && (forall c :: c in cs ==> c in s.log.holder && c !in s.log.closes)
      && Distinct(cs)
  {
    var ks := Ascending(S);
    AscendingInOrder(S);
    ToCloseExact(s.entries, ks);
    forall i, j | 0 <= i < j < |ks|
      ensures ks[i] != ks[j]
    {
      assert Before(ks[i], ks[j]);
    }
    forall j, k | j in ks && k in ks && j != k && s.entries[j].conn.Some?
      ensures s.entries[j].conn != s.entries[k].conn
    {
      SlotAlone(s, j);
    }
    ToCloseOnce(s.entries, ks);
  }

  lemma {:induction false} TakenBackCloses(s: Net, t: Net, S: set<Slot>)
    requires Numbered(s) && ConnsPlaced(s) && MarksKept(s) && ClosedRightly(s) && TakesBack(s, t, S)
    ensures MarksKept(t) && ClosedRightly(t)
  {
    assert forall h :: Spared(t, h) <==> Spared(s, h);
    TakenBackOnce(s, t, S);
    TakenBackHeld(s, t, S);
  }

  lemma {:induction false} TakenBackOnce(s: Net, t: Net, S: set<Slot>)
    requires Numbered(s) && ConnsPlaced(s) && ClosedRightly(s) && TakesBack(s, t, S)
    ensures ClosedOnce(t) && ClosedUnheld(t)
  {
    NewlyClosed(s, S);
    PendingKept(s, t);
    var cs := ConnsToClose(s.entries, Ascending(S));
    assert forall c :: c in t.log.closes <==> c in s.log.closes || c in cs;
    forall i, j | 0 <= i < j < |t.log.closes|
      ensures t.log.closes[i] != t.log.closes[j]
    {
      if i < |s.log.closes| <= j {
        assert t.log.closes[i] in s.log.closes && cs[j - |s.log.closes|] in cs;
      }
    }
  }

  lemma {:induction false} TakenBackHeld(s: Net, t: Net, S: set<Slot>)
    requires Numbered(s) && ConnsPlaced(s) && MarksKept(s) && ClosedRightly(s) && TakesBack(s, t, S)
    ensures ClosedHeld(t) && ClosedLeft(t)
  {
    NewlyClosed(s, S);
    var cs := ConnsToClose(s.entries, Ascending(S));
    forall k | k in t.entries && t.entries[k].conn.Some?
      ensures t.entries[k].conn.value in t.log.closes <==> t.entries[k].gone.Some? && !Spared(t, k.handle)
    {
      SlotAlone(s, k);
    }
    forall c | c in t.log.holder && !Held(t, t.log.holder[c])
      ensures c in t.log.closes <==> !Spared(t, t.log.holder[c])
    {
      LeavesClosed(s, S, c);
      if Held(s, s.log.holder[c]) {
        var k :| k in s.entries && k.handle == s.log.holder[c];
        assert k !in t.entries;
      }
    }
  }

  /** A Conn whose handle had left before is not closed again; one whose handle leaves now is closed if it was not spared. */
  lemma {:induction false} LeavesClosed(s: Net, S: set<Slot>, c: Conn)
    requires Numbered(s) && ConnsPlaced(s) && MarksKept(s) && ClosedRightly(s) && S <= s.entries.Keys && c in s.log.holder
    ensures !Held(s, s.log.holder[c]) ==> (c in s.log.closes + ConnsToClose(s.entries, Ascending(S)) <==> !Spared(s, s.log.holder[c]))
    ensures forall k :: k in S && k.handle == s.log.holder[c]
              ==> (c in s.log.closes + ConnsToClose(s.entries, Ascending(S)) <==> !Spared(s, s.log.holder[c]))
  {
    NewlyClosed(s, S);
    var cs := ConnsToClose(s.entries, Ascending(S));
    forall k | k in S && s.entries[k].conn == Some(c)
      ensures Held(s, s.log.holder[c])
    {
      assert k.handle == s.log.holder[c];
    }
    forall k | k in S && k.handle == s.log.holder[c]
      ensures c in s.log.closes + cs <==> !Spared(s, s.log.holder[c])
    {
      assert s.entries[k].conn == Some(c);
      if c in cs {
        var k' :| k' in S && s.entries[k'].gone.None? && s.entries[k'].conn == Some(c);
        SlotAlone(s, k);
      }
    }
  }

  lemma {:induction false} TakenBackInv(s: Net, t: Net, S: set<Slot>)
    requires Inv(s) && TakesBack(s, t, S)
    requires OneEach(t.offers)
    requires forall o :: o in t.offers ==> o in s.offers && Slot(o.from, o.handle) !in S
    ensures Inv(t)
  {
    hide Numbered, InOrder, Tidy, Conserved, ConnsPlaced, MarksKept, ClosedRightly, OffersStand, BacklogsBounded;
    TakenBackPlaced(s, t, S);
    TakenBackCloses(s, t, S);
    CalmKeeps(s, t);
    TakenBackOffers(s, t, S);
  }

  lemma {:induction false} TakenBackOffers(s: Net, t: Net, S: set<Slot>)
    requires OffersStand(s) && TakesBack(s, t, S)
    requires OneEach(t.offers)
    requires forall o :: o in t.offers ==> o in s.offers && Slot(o.from, o.handle) !in S
    ensures OffersStand(t)
  {
    forall h | h in t.log.refused
      ensures !Held(t, h)
    {
      assert !Held(s, h);
    }
  }

  lemma {:induction false} WaitersNotOffered(s: Net, S: set<Slot>)
    requires OffersStand(s) && S <= s.entries.Keys && forall k :: k in S ==> s.entries[k].waiting.Some?
    ensures OneEach(s.offers)
    ensures forall o :: o in s.offers ==> Slot(o.from, o.handle) !in S
  {
    forall o | o in s.offers
      ensures Slot(o.from, o.handle) !in S
    {
      if o.handle in s.log.refused {
        assert !Held(s, o.handle);
      }
    }
  }

  lemma InvOffers(s: Net)
    requires Inv(s)
    ensures OffersStand(s) && OneEach(s.offers)
  {
  }

  lemma {:induction false} CloseInv(s: Net, caller: Caller, handle: nat)
    requires Inv(s)
    ensures Inv(Close(s, caller, handle).0)
  {
    hide Inv;
    var k := Slot(caller, handle);
    if Mine(s, k) {
      var W := WaitingUnder(s.entries, caller, handle);
      InvOffers(s);
      WaitersNotOffered(s, W);
      TakenBackInv(s, TakeBack(s, W), W);
      CloseOwnInv(TakeBack(s, W), Close(s, caller, handle).0, k);
    }
  }

  lemma {:induction false} CloseOwnInv(s: Net, t: Net, k: Slot)
    requires Inv(s) && TakesBack(s, t, {k}) && t.offers == Without(s.offers, k.owner, k.handle)
    ensures Inv(t)
  {
    WithoutExact(s.offers, k.owner, k.handle);
    TakenBackInv(s, t, {k});
  }

  lemma {:induction false} ReleaseInv(s: Net, owner: Caller)
    requires Inv(s)
    ensures Inv(Release(s, owner).0)
  {
    hide Inv;
    InvOffers(s);
    WithoutPartyExact(s.offers, owner);
    TakenBackInv(s, Release(s, owner).0, Owned(s.entries, owner));
  }

  lemma {:induction false} DropInv(s: Net)
    requires Inv(s)
    ensures Inv(Dropped(s))
  {
    hide Inv;
    TakenBackInv(s, Dropped(s), s.entries.Keys);
  }

  // ----- runs -----

  /** What can happen to the connector, one step at a time. */
  datatype Step =
    | OpenStep(caller: Caller, address: string, queue: Option<string>, vital: bool)
    | ListenStep(caller: Caller, address: string, queue: Option<string>)
    | SettleStep(caller: Caller, handle: nat, answer: Result<Conn, string>)
    | ReportStep(ev: Event)
    | ArriveStep(listener: nat, conn: Conn, peer: string)
    | SweepStep
    | AcceptStep(caller: Caller, handle: nat, queue: Option<string>, vital: bool)
    | RecvStep(caller: Caller, handle: nat)
    | CloseStep(caller: Caller, handle: nat)
    | TransferStep(caller: Caller, handle: nat, to: Caller)
    | ClaimStep(caller: Caller, named: Option<nat>, queue: Option<string>, vital: bool)
    | ReleaseStep(caller: Caller)
    | DropStep
    | EndedStep
    | NoticesStep

  /** The transport answers each call once, with a Conn it never gave before, and
      reports on links it was handed: keys are given out from 1 on. Callers are free. */
  predicate Allowed(s: Net, step: Step) {
    match step
    case SettleStep(caller, handle, answer) =>
      Slot(caller, handle) in s.log.opening && (answer.Ok? ==> answer.value !in s.log.seen)
    case ReportStep(ev) => !ev.Accepted? && 0 < ev.key < s.nextKey
    case ArriveStep(listener, conn, _) => 0 < listener < s.nextKey && conn !in s.log.seen
    case _ => true
  }

  /** Once the connector has gone, only the transport's links are left. */
  predicate Possible(s: Net, step: Step) {
    Allowed(s, step) && (s.log.dropped ==> step.ReportStep? || step.ArriveStep?)
  }

  ghost function Next(s: Net, step: Step): Net {
    match step
    case OpenStep(caller, address, queue, vital) => BeginOpen(s, caller, address, queue, vital)
    case ListenStep(caller, address, queue) => BeginListen(s, caller, address, queue)
    case SettleStep(caller, handle, answer) => Settle(s, caller, handle, answer)
    case ReportStep(ev) => Report(s, ev)
    case ArriveStep(listener, conn, peer) => Arrive(s, listener, conn, peer)
    case SweepStep => Sweep(s)
    case AcceptStep(caller, handle, queue, vital) => Accept(s, caller, handle, queue, vital).0
    case RecvStep(caller, handle) => Recv(s, caller, handle).0
    case CloseStep(caller, handle) => Close(s, caller, handle).0
    case TransferStep(caller, handle, to) => Transfer(s, caller, handle, to).0
    case ClaimStep(caller, named, queue, vital) => Claim(s, caller, named, queue, vital).0
    case ReleaseStep(caller) => Release(s, caller).0
    case DropStep => Dropped(s)
    case EndedStep => TakeEnded(s).0
    case NoticesStep => TakeNotices(s).0
  }

  lemma {:induction false} NextInv(s: Net, step: Step)
    requires Inv(s) && Allowed(s, step)
    ensures Inv(Next(s, step))
  {
    hide Inv, Sweep, AcceptLook, RecvLook, Close, Transfer, Claim, Release, Dropped, Settle, Begin;
    match step
    case OpenStep(caller, address, queue, vital) =>
      BeginInv(s, caller, Entry(s.nextKey, None, false, address, queue, vital, [], None, None));
    case ListenStep(caller, address, queue) =>
      BeginInv(s, caller, Entry(s.nextKey, None, true, address, queue, false, [], None, None));
    case SettleStep(caller, handle, answer) =>
      SettleInv(s, Slot(caller, handle), answer);
    case ReportStep(ev) => ReportInv(s, ev);
    case ArriveStep(listener, conn, peer) => ArriveInv(s, listener, conn, peer);
    case SweepStep => SweepInv(s);
    case AcceptStep(caller, handle, queue, vital) =>
      SweepInv(s);
      AcceptLookInv(Sweep(s), caller, handle, queue, vital);
    case RecvStep(caller, handle) =>
      SweepInv(s);
      RecvLookInv(Sweep(s), caller, handle);
    case CloseStep(caller, handle) => CloseInv(s, caller, handle);
    case TransferStep(caller, handle, to) => TransferInv(s, caller, handle, to);
    case ClaimStep(caller, named, queue, vital) => ClaimInv(s, caller, named, queue, vital);
    case ReleaseStep(caller) => ReleaseInv(s, caller);
    case DropStep => DropInv(s);
    case EndedStep => FetchInv(s);
    case NoticesStep => FetchInv(s);
  }

  lemma {:induction false} SettleInv(s: Net, k: Slot, answer: Result<Conn, string>)
    requires Inv(s) && k in s.log.opening && (answer.Ok? ==> answer.value !in s.log.seen)
    ensures Inv(Settle(s, k.owner, k.handle, answer))
  {
    hide Inv;
    match answer
    case Ok(c) => if k in s.entries { AnsweredInv(s, k, c); } else { OrphanInv(s, k, c); }
    case Err(why) => RefusedInv(s, k, why);
  }

  lemma {:induction false} FetchInv(s: Net)
    requires Inv(s)
    ensures Inv(TakeEnded(s).0) && Inv(TakeNotices(s).0)
  {
    SweepInv(s);
    var u := Sweep(s);
    FetchedOffers(u, TakeEnded(s).0);
    FetchedOffers(u, TakeNotices(s).0);
    OffersOnly(u, TakeEnded(s).0);
    OffersOnly(u, TakeNotices(s).0);
  }

  lemma {:induction false} FetchedOffers(s: Net, t: Net)
    requires OffersStand(s) && SameTable(s, t) && t.offers == s.offers
    ensures OffersStand(t)
  {
    assert forall h :: Held(t, h) <==> Held(s, h);
    assert forall j :: Mine(t, j) <==> Mine(s, j);
  }

  ghost predicate Runs(s: Net, steps: seq<Step>)
    decreases |steps|
  {
    steps == [] || (Possible(s, steps[0]) && Runs(Next(s, steps[0]), steps[1..]))
  }

  ghost function After(s: Net, steps: seq<Step>): Net
    decreases |steps|
  {
    if steps == [] then s else After(Next(s, steps[0]), steps[1..])
  }

  /** Every reachable state satisfies the invariant. */
  lemma {:induction false} EveryRunKeepsInv(s: Net, steps: seq<Step>)
    requires Inv(s) && Runs(s, steps)
    ensures Inv(After(s, steps))
    decreases |steps|
  {
    if steps != [] {
      NextInv(s, steps[0]);
      EveryRunKeepsInv(Next(s, steps[0]), steps[1..]);
    }
  }
}