/**
 The bus's own objects: ends linked to each other and a table of listeners. Each
 operation updates them in place and is proved to be the one of `BusState`.
 */
module Bus {
  import opened Prelude
  import S = BusState

  /** One end of a connection, or a listener's name. */
  class End {
    ghost const id: nat
    /** The other end's link: where this end's sends arrive. */
    var far: Option<S.Link>
    /** This end's own link, so closing it tells the other side. */
    var near: Option<S.Link>
    var other: End?
    var listening: Option<string>

    constructor (ghost id: nat, far: S.Link, near: S.Link)
      ensures this.id == id && this.far == Some(far) && this.near == Some(near) && other == null && listening == None
    {
      this.id := id;
      this.far, this.near, other, listening := Some(far), Some(near), null, None;
    }

    constructor Listener(ghost id: nat, address: string)
      ensures this.id == id && far == None && near == None && other == null && listening == Some(address)
    {
      this.id := id;
      far, near, other, listening := None, None, null, Some(address);
    }

    ghost function State(): S.EndState
      reads this
    {
      S.EndState(far, near, if other == null then None else Some(other.id), listening)
    }
  }

  /** Ends are known by number, and an end's other end is one of them. */
  ghost predicate Joined(m: map<nat, End>, next: nat)
    reads m.Values
  {
    && (forall i :: i in m ==> i < next && m[i].id == i)
    && (forall i :: i in m && m[i].other != null ==> m[i].other.id in m && m[m[i].other.id] == m[i].other)
  }

  ghost function States(m: map<nat, End>): map<nat, S.EndState>
    reads m.Values
  {
    map i | i in m :: m[i].State()
  }

  lemma StatesPlus(m: map<nat, End>, i: nat, e: End)
    ensures States(m[i := e]) == States(m)[i := e.State()]
  {
  }

  lemma JoinedPlus(m: map<nat, End>, n: nat, mine: End, theirs: End)
    requires Joined(m, n) && mine.id == n && theirs.id == n + 1 && mine.other == theirs && theirs.other == mine
    ensures Joined(m[n := mine][n + 1 := theirs], n + 2)
  {
  }

  class Bus {
    var listeners: map<string, S.Link>
    ghost var ends: map<nat, End>
    ghost var nextEnd: nat

    ghost predicate Valid()
      reads this, ends.Values
    {
      Joined(ends, nextEnd)
    }

    ghost function View(): S.BusState
      reads this, ends.Values
    {
      S.BusState(States(ends), nextEnd, listeners)
    }

    lemma ViewIs(states: map<nat, S.EndState>)
      requires states.Keys == ends.Keys && forall i :: i in ends ==> ends[i].State() == states[i]
      ensures View().ends == states
    {
    }

    ghost predicate Knows(conn: End)
      reads this
    {
      conn.id in ends && ends[conn.id] == conn
    }

    constructor ()
      ensures Valid() && View() == S.Idle
    {
      listeners, ends, nextEnd := map[], map[], 0;
    }

    /** Connect to `address`; `theirLink` is what its acceptor answers the arrival with. */
    method Open(address: string, link: S.Link, theirLink: S.Link) returns (r: Result<(End, End), string>)
      requires Valid()
      modifies this
      ensures Valid() && (r.Ok? <==> address in old(listeners))
      ensures r.Ok? ==> View() == S.Connect(old(View()), link, theirLink)
      ensures r.Ok? ==> r.value.0.id == old(nextEnd) && r.value.1.id == old(nextEnd) + 1 && Knows(r.value.0) && Knows(r.value.1)
      ensures r.Err? ==> View() == old(View()) && r.error == "nobody listens on '" + address + "'"
    {
      hide Joined, States;
      if address !in listeners {
        return Err("nobody listens on '" + address + "'");
      }
      var mine := new End(nextEnd, theirLink, link);
      var theirs := new End(nextEnd + 1, link, theirLink);
      mine.other, theirs.other := theirs, mine;
      Register(mine, theirs);
      r := Ok((mine, theirs));
    }

    ghost method Register(mine: End, theirs: End)
      requires Valid() && mine.id == nextEnd && theirs.id == nextEnd + 1 && mine.other == theirs && theirs.other == mine
      modifies this`ends, this`nextEnd
      ensures Valid() && Knows(mine) && Knows(theirs)
      ensures View() == old(View()).(ends := old(View()).ends[old(nextEnd) := mine.State()][old(nextEnd) + 1 := theirs.State()],
                                     nextEnd := old(nextEnd) + 2)
    {
      JoinedPlus(ends, nextEnd, mine, theirs);
      StatesPlus(ends, nextEnd, mine);
      StatesPlus(ends[nextEnd := mine], nextEnd + 1, theirs);
      hide Joined, States, End.State;
      ends := ends[nextEnd := mine][nextEnd + 1 := theirs];
      nextEnd := nextEnd + 2;
    }

    method Listen(address: string, acceptor: S.Link) returns (r: Result<End, string>)
      requires Valid()
      modifies this
      ensures Valid()
      ensures match S.Listen(old(View()), address, acceptor)
              case Ok(b) => r.Ok? && View() == b && Knows(r.value) && r.value.id == old(nextEnd)
              case Err(why) => r == Err(why) && View() == old(View())
    {
      if address in listeners {
        return Err("'" + address + "' already has a listener");
      }
      listeners := listeners[address := acceptor];
      var end := new End.Listener(nextEnd, address);
      ends := ends[nextEnd := end];
      nextEnd := nextEnd + 1;
      r := Ok(end);
    }

    /** The link a send on `conn` is received on. */
    method Send(conn: End) returns (r: Result<S.Link, string>)
      requires Valid() && Knows(conn)
      ensures r == S.Send(View(), conn.id)
    {
      if conn.far.None? {
        return Err("the far end is gone");
      }
      r := Ok(conn.far.value);
    }

    /** The closing side of `Close`: this end lets go of everything. */
    method LetGo(conn: End) returns (listening: Option<string>, other: End?)
      requires Valid() && Knows(conn)
      modifies conn
      ensures Valid() && listening == old(conn.listening) && other == old(conn.other)
      ensures View() == old(View()).(ends := old(View()).ends[conn.id := S.EndState(None, None, None, None)])
    {
      ghost var was := View().ends;
      conn.far, conn.near := None, None;
      listening, other := conn.listening, conn.other;
      conn.listening, conn.other := None, null;
      ViewIs(was[conn.id := S.EndState(None, None, None, None)]);
    }

    /** The other side of `Close`: it forgets this end, and hands over its own link. */
    method Forget(other: End) returns (near: Option<S.Link>)
      requires Valid() && Knows(other)
      modifies other
      ensures Valid() && near == old(other.near)
      ensures View() == old(View()).(ends := old(View()).ends[other.id := old(other.State()).(far := None, other := None, near := None)])
    {
      ghost var was := View().ends;
      ghost var left := other.State().(far := None, other := None, near := None);
      other.far, other.other := None, null;
      near := other.near;
      other.near := None;
      ViewIs(was[other.id := left]);
    }

    /** Close one end; the answer is the link to tell. */
    method Close(conn: End) returns (told: Option<S.Link>)
      requires Valid() && Knows(conn)
      modifies this, conn, if conn.other == null then {} else {conn.other}
      ensures Valid() && ends == old(ends)
      ensures (View(), told) == S.Close(old(View()), conn.id)
    {
      var listening, other := LetGo(conn);
      ghost var was := View().ends;
      if listening.Some? {
        listeners := listeners - {listening.value};
      }
      ViewIs(was);
      told := None;
      if other != null {
        told := Forget(other);
      }
    }
  }
}
