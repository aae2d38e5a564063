/**
 The in-process bus as values: ends named by number, each with the link its sends
 arrive on, its own link, and its other end. `Bus` holds the linked objects that
 run these operations.
 */
module BusState {
  import opened Prelude

  /** A report line: which connector's inbox, and under which key. */
  datatype Link = Link(net: nat, key: nat)

  datatype EndState = EndState(
    far: Option<Link>,
    near: Option<Link>,
    other: Option<nat>,
    listening: Option<string>)

  datatype BusState = BusState(ends: map<nat, EndState>, nextEnd: nat, listeners: map<string, Link>)

  const Idle: BusState := BusState(map[], 0, map[])

  const FAR_CLOSED: string := "the far end closed"

  /** Two new ends that hand each other's messages across. */
  function Connect(b: BusState, mine: Link, theirs: Link): BusState {
    var a := b.nextEnd;
    b.(ends := b.ends[a := EndState(Some(theirs), Some(mine), Some(a + 1), None)]
                     [a + 1 := EndState(Some(mine), Some(theirs), Some(a), None)],
       nextEnd := a + 2)
  }

  function Listen(b: BusState, address: string, acceptor: Link): Result<BusState, string> {
    if address in b.listeners then Err("'" + address + "' already has a listener")
    else Ok(b.(ends := b.ends[b.nextEnd := EndState(None, None, None, Some(address))],
               nextEnd := b.nextEnd + 1,
               listeners := b.listeners[address := acceptor]))
  }

  /** Where a send on end `a` arrives. */
  function Send(b: BusState, a: nat): Result<Link, string>
    requires a in b.ends
  {
    if b.ends[a].far.Some? then Ok(b.ends[a].far.value) else Err("the far end is gone")
  }

  /** Close end `a`; the answer is the link of the other side, to be told. */
  function Close(b: BusState, a: nat): (BusState, Option<Link>)
    requires a in b.ends
  {
    var s := b.ends[a];
    var b1 := b.(ends := b.ends[a := EndState(None, None, None, None)],
                 listeners := if s.listening.Some? then b.listeners - {s.listening.value} else b.listeners);
    if s.other.Some? && s.other.value in b1.ends then
      var o := b1.ends[s.other.value];
      (b1.(ends := b1.ends[s.other.value := o.(far := None, other := None, near := None)]), o.near)
    else (b1, None)
  }

  /** A name is taken by listening and freed by closing the end that listens; its connections go to who took it. */
  lemma NameIsTaken(b: BusState, address: string, acceptor: Link)
    requires b.nextEnd !in b.ends
    ensures var r := Listen(b, address, acceptor);
      && (r.Err? <==> address in b.listeners)
      && (r.Ok? ==>
           && r.value.listeners == b.listeners[address := acceptor] && r.value.nextEnd == b.nextEnd + 1
           && Listen(r.value, address, acceptor).Err?
           && Close(r.value, b.nextEnd).0.listeners == b.listeners && Close(r.value, b.nextEnd).1 == None)
  {
    if address !in b.listeners {
      assert b.listeners[address := acceptor] - {address} == b.listeners;
    }
  }
}
