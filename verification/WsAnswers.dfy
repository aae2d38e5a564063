/** What the owner of a WebSocket is told, against what happened to the connection. */
module WsAnswers {
  import opened Prelude
  import opened WsState

  // ----- how a connection ended -----

  /**
   What ends the loop, and how: the far end's close frame, or 1005 for one without a
   code; 1006 with its sentence for a break, silence, a send or a dial that failed;
   the owner's own close; and 1001 for a handle dropped.
   */
  function Ender(c: Conn, a: Action): Option<(nat, string)> {
    match a
    case ADialFailed(why) => Some((1006, why))
    case AFrame(CloseFrame(Some((code, reason)))) => Some((code, reason))
    case AFrame(CloseFrame(None)) => Some((1005, ""))
    case AFrame(Broken(why)) => Some((1006, why))
    case AFrame(End(sentence)) => Some((1006, sentence))
    case ASilent(sentence) => Some((1006, sentence))
    case ATakeOut(failure) =>
      if c.queue == [] then Some((1001, ""))
      else if c.queue[0].Close? then Some((c.queue[0].code, c.queue[0].reason))
      else if failure.Some? then Some((1006, failure.value))
      else None
    case _ => None
  }

  /** The first thing in a run that ended the loop. */
  function Cause(c: Conn, actions: seq<Action>): Option<(nat, string)>
    decreases |actions|
  {
    if actions == [] then None
    else if Ender(c, actions[0]).Some? then Ender(c, actions[0])
    else Cause(Step(c, actions[0]), actions[1..])
  }

  /** The connection stands where this ending, or none yet, leaves it. */
  predicate Stands(c: Conn, end: Option<(nat, string)>) {
    match c.phase
    case Ending(code, reason) => end == Some((code, reason))
    case Done =>
      (match c.state
       case Closed(code, reason) => end == Some((code, reason))
       case Failed(why) => end == Some((1006, why))
       case _ => false)
    case _ => end == None
  }

  lemma {:induction false} StepStands(c: Conn, a: Action, end: Option<(nat, string)>)
    requires PhaseSays(c) && Possible(c, a) && Stands(c, end)
    ensures Stands(Step(c, a), if end.Some? then end else Ender(c, a))
  {
    hide PhaseSays;
    if OfOwner(a) {
      StepLeaves(c, a);
      hide Step, Possible;
    } else if a.AFrame? {
      FrameStands(c, a.frame);
    } else if a.ATakeOut? {
      TakeOutStands(c, a.failure);
    } else {
      hide Received, TakeOut;
    }
  }

  lemma FrameStands(c: Conn, frame: Frame)
    requires c.phase.Select?
    ensures Stands(Received(c, frame), Ender(c, AFrame(frame)))
  {
  }

  lemma TakeOutStands(c: Conn, failure: Option<string>)
    requires c.phase.Select?
    ensures Stands(TakeOut(c, failure), Ender(c, ATakeOut(failure)))
  {
  }

  lemma {:induction false} RunStands(c: Conn, actions: seq<Action>, end: Option<(nat, string)>)
    requires PhaseSays(c) && Runs(c, actions) && Stands(c, end)
    ensures PhaseSays(After(c, actions)) && Stands(After(c, actions), if end.Some? then end else Cause(c, actions))
    decreases |actions|
  {
    hide Step, Possible, Stands, PhaseSays, Ender;
    if actions != [] {
      StepStands(c, actions[0], end);
      KeepsPhase(c, actions[0]);
      RunStands(Step(c, actions[0]), actions[1..], if end.Some? then end else Ender(c, actions[0]));
    }
  }

  /**
   In any run, `recv` says nothing of a close while the connection is opening or open,
   and once it is over says what ended it, at every look. It gives all that waits, and
   answers nothing only when told to wait, with nothing there and nothing over.
   */
  lemma {:induction false} RecvSaysCause(wake: bool, actions: seq<Action>, wait: bool)
    requires Runs(Begun(wake), actions)
    ensures var v, cause := After(Begun(wake), actions), Cause(Begun(wake), actions);
      var over := v.state.Closed? || v.state.Failed?;
      && (over ==> cause.Some?)
      && (RecvAnswer(v, wait) == None <==> wait && v.inbox == [] && !over)
      && (RecvAnswer(v, wait).Some? ==> RecvAnswer(v, wait).value == Answer(v.inbox, if over then cause else None))
      && (forall j :: 0 <= j < |v.log.answers| && v.log.answers[j].closed.Some? ==> over && v.log.answers[j].closed == cause)
  {
    var v := After(Begun(wake), actions);
    assert PhaseSays(Begun(wake)) && Stands(Begun(wake), None);
    RunStands(Begun(wake), actions, None);
    BegunKeeps(wake);
    EveryRunKeeps(Begun(wake), actions);
    InvClosedLast(v);
    hide Inv, Runs, After, Cause, Begun;
  }

  lemma InvClosedLast(c: Conn)
    requires Inv(c)
    ensures forall j :: 0 <= j < |c.log.answers| && c.log.answers[j].closed.Some? ==>
              c.log.answers[j].closed == ClosedAnswer(c.state) && (c.state.Closed? || c.state.Failed?)
  {
    assert ClosedLast(c);
    hide Inv;
    forall j | 0 <= j < |c.log.answers| && c.log.answers[j].closed.Some?
      ensures c.log.answers[j].closed == ClosedAnswer(c.state) && (c.state.Closed? || c.state.Failed?)
    {
      assert c.closeSeen;
    }
  }

  /** A look takes all that waits, and leaves a wake for the task exactly when the inbox was full, or one was left already. */
  lemma RecvTakes(c: Conn, wait: bool)
    ensures var d := Step(c, ARecv(wait));
      && d.inbox == [] && !d.notified && (d.permit <==> c.permit || |c.inbox| >= 256)
      && d.state == c.state && d.queue == c.queue && d.phase == c.phase
      && d.log.answers == c.log.answers + if RecvAnswer(c, wait).Some? then [RecvAnswer(c, wait).value] else []
  {
    assert c.log.answers + [] == c.log.answers;
    hide ClosedAnswer, RecvAnswer;
  }

  // ----- sending -----

  /** A send is taken exactly when the connection is open and has room, waits while it opens or is full, and is refused once it is over. */
  lemma SendSays(c: Conn, m: Message)
    ensures var r, d := SendAnswer(c), Step(c, ASend(m));
      && (r == Sent <==> c.state.Open? && |c.queue| < 64)
      && (r == Refused <==> c.state.Closed? || c.state.Failed?)
      && (r == Pending <==> c.state.Connecting? || (c.state.Open? && |c.queue| >= 64))
      && d.queue == c.queue + (if r == Sent then [Send(m)] else [])
      && d.log.accepted == c.log.accepted + (if r == Sent then [m] else [])
  {
    assert c.queue + [] == c.queue && c.log.accepted + [] == c.log.accepted;
  }

  // ----- being told -----

  /** The owner was told since it last looked. */
  predicate Knows(c: Conn) {
    c.log.marks != [] && c.log.marks[|c.log.marks| - 1] == Noticed
  }

  /** There is something to look at: a message, or that it is over, the close not yet seen. */
  predicate Something(c: Conn) {
    !c.closeSeen && (c.inbox != [] || c.state.Closed? || c.state.Failed?)
  }

  /**
   When notices are gathered, an owner that asked to be woken is told exactly when
   there is something to look at and it was not told since it last looked; after that
   it knows whatever there is.
   */
  lemma {:induction false} ReadyIsTold(c: Conn)
    requires Reachable(c)
    ensures var d := Step(c, ANotices);
      && (Ready(c) <==> c.wake && Something(c) && !Knows(c))
      && d.log.marks == c.log.marks + (if c.wake && Something(c) && !Knows(c) then [Noticed] else [])
      && (c.wake && Something(c) ==> Knows(d))
  {
    ReachableKeeps(c);
    assert NoticedOnce(c);
    assert c.log.marks + [] == c.log.marks;
    hide Inv, Reachable;
  }

  // ----- opening -----

  ghost predicate DialedWith(actions: seq<Action>, status: nat) {
    exists i :: 0 <= i < |actions| && actions[i] == ADialed(status)
  }

  /** An open connection says what its handshake was answered with. */
  lemma {:induction false} OpenSays(wake: bool, actions: seq<Action>)
    requires Runs(Begun(wake), actions)
    ensures var s := After(Begun(wake), actions).state;
      s.Open? ==> DialedWith(actions, s.status)
  {
    OpenFrom(Begun(wake), actions);
  }

  lemma {:induction false} OpenFrom(c: Conn, actions: seq<Action>)
    requires Runs(c, actions)
    ensures var s := After(c, actions).state;
      s.Open? && s != c.state ==> DialedWith(actions, s.status)
    decreases |actions|
  {
    hide Step, Possible;
    if actions != [] {
      var d := Step(c, actions[0]);
      OpenFrom(d, actions[1..]);
      OneOpens(c, actions[0]);
      var s := After(c, actions).state;
      if s.Open? && s != d.state {
        var i :| 0 <= i < |actions[1..]| && actions[1..][i] == ADialed(s.status);
        assert actions[i + 1] == ADialed(s.status);
      }
    }
  }

  lemma OneOpens(c: Conn, a: Action)
    ensures Step(c, a).state.Open? && Step(c, a).state != c.state ==> a == ADialed(Step(c, a).state.status)
  {
    StepLeaves(c, a);
    hide Received, TakeOut, Recv, SendOne, CloseCall, Notices;
  }
}
