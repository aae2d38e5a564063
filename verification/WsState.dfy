/** One WebSocket connection: its task and its owner, as steps over what they share. */
module WsState {
  import opened Prelude

  const INBOX_MAX: nat := 256
  const OUTBOX_MAX: nat := 64

  /** A message: text or bytes, kept as they came. */
  datatype Message = Message(bytes: Bytes)

  datatype State =
    | Connecting
    | Open(status: nat)
    | Failed(why: string)
    | Closed(code: nat, reason: string)

  /** Where the connection's task stands. `Select` waits, having found the inbox full or not. */
  datatype Phase =
    | Dialing
    | Top
    | Select(full: bool)
    | Ending(code: nat, reason: string)
    | Done

  datatype Out = Send(message: Message) | Close(code: nat, reason: string)

  datatype Frame =
    | Data(message: Message)
    | Control
    | CloseFrame(code: Option<(nat, string)>)
    | Broken(why: string)
    | End(sentence: string)

  /** What `recv` hands the owner. */
  datatype Answer = Answer(messages: seq<Message>, closed: Option<(nat, string)>)

  /** The owner was told its connection is ready, or looked at it. */
  datatype Mark = Noticed | Looked

  /**
   What happened, for stating properties: nothing reads it. `read` is every message
   the task read, `pushed` those it put in the inbox. `said` is the codes of the close
   frames the task asked to have sent; the library's own reply to the far end's close
   is not one of them.
   */
  datatype Log = Log(
    read: seq<Message>, pushed: seq<Message>, answers: seq<Answer>, accepted: seq<Message>, wire: seq<Message>, said: seq<nat>,
    marks: seq<Mark>)

  datatype Conn = Conn(
    state: State, inbox: seq<Message>, permit: bool, queue: seq<Out>, held: bool,
    wake: bool, notified: bool, closeSeen: bool, phase: Phase, log: Log)

  function Begun(wake: bool): Conn {
    Conn(Connecting, [], false, [], true, wake, false, false, Dialing, Log([], [], [], [], [], [], []))
  }

  predicate Ended(s: State) {
    s.Closed? || s.Failed?
  }

  // ----- the task -----

  function Dialed(c: Conn, status: nat): Conn {
    c.(state := Open(status), phase := Top)
  }

  function DialFailed(c: Conn, why: string): Conn {
    c.(state := Failed(why), phase := Done)
  }

  function Look(c: Conn): Conn {
    c.(phase := Select(|c.inbox| >= INBOX_MAX))
  }

  function Received(c: Conn, frame: Frame): Conn {
    match frame
    case Data(m) =>
      c.(inbox := c.inbox + [m], phase := Top, log := c.log.(read := c.log.read + [m], pushed := c.log.pushed + [m]))
    case Control => c.(phase := Top)
    case CloseFrame(Some((code, reason))) => c.(phase := Ending(code, reason))
    case CloseFrame(None) => c.(phase := Ending(1005, ""))
    case Broken(why) => c.(phase := Ending(1006, why))
    case End(sentence) => c.(phase := Ending(1006, sentence))
  }

  /** Once its close frame went out the task waits for the far end's, and drops what else comes. */
  function Passed(c: Conn, frame: Frame): Conn {
    if frame.Data? then c.(log := c.log.(read := c.log.read + [frame.message])) else c
  }

  function Woken(c: Conn): Conn {
    c.(permit := false, phase := Top)
  }

  /** The owner's next wish, or that the owner let go; `failure` is what sending met. */
  function TakeOut(c: Conn, failure: Option<string>): Conn {
    if c.queue == [] then SayClose(c.(phase := Ending(1001, "")), 1001)
    else if Carried(c.queue[0], failure) then
      c.(queue := c.queue[1..], phase := Top, log := c.log.(wire := c.log.wire + [c.queue[0].message]))
    else
      var ended := c.(queue := c.queue[1..], phase := EndedBy(c.queue[0], failure));
      if c.queue[0].Close? then SayClose(ended, c.queue[0].code) else ended
  }

  /** A close frame goes out. */
  function SayClose(c: Conn, code: nat): Conn {
    c.(log := c.log.(said := c.log.said + [code]))
  }

  /** A message the wire took. */
  predicate Carried(wish: Out, failure: Option<string>) {
    wish.Send? && failure.None?
  }

  /** How a close, or a send that failed, ends the loop. */
  function EndedBy(wish: Out, failure: Option<string>): Phase
    requires !Carried(wish, failure)
  {
    match wish
    case Send(_) => Ending(1006, failure.value)
    case Close(code, reason) => Ending(code, reason)
  }

  function Silent(c: Conn, sentence: string): Conn {
    SayClose(c.(phase := Ending(1006, sentence)), 1001)
  }

  function SetClosed(c: Conn): Conn {
    if c.phase.Ending? then c.(state := Closed(c.phase.code, c.phase.reason), phase := Done) else c
  }

  // ----- the owner -----

  function ClosedAnswer(s: State): Option<(nat, string)> {
    match s
    case Closed(code, reason) => Some((code, reason))
    case Failed(why) => Some((1006, why))
    case _ => None
  }

  function RecvAnswer(c: Conn, wait: bool): Option<Answer> {
    if c.inbox == [] && ClosedAnswer(c.state).None? && wait then None
    else Some(Answer(c.inbox, ClosedAnswer(c.state)))
  }

  function Recv(c: Conn, wait: bool): Conn {
    var answer := RecvAnswer(c, wait);
    var answers := if answer.Some? then c.log.answers + [answer.value] else c.log.answers;
    c.(inbox := [], notified := false,
       permit := c.permit || |c.inbox| >= INBOX_MAX,
       closeSeen := c.closeSeen || ClosedAnswer(c.state).Some?,
       log := c.log.(answers := answers, marks := c.log.marks + [Looked]))
  }

  datatype Sending = Sent | Pending | Refused

  function SendAnswer(c: Conn): Sending {
    if c.state.Connecting? then Pending
    else if Ended(c.state) then Refused
    else if |c.queue| < OUTBOX_MAX then Sent else Pending
  }

  function SendOne(c: Conn, m: Message): Conn {
    if SendAnswer(c) == Sent then
      c.(queue := c.queue + [Send(m)], log := c.log.(accepted := c.log.accepted + [m]))
    else c
  }

  /** The owner closes: the wish is queued if there is room for it, and the handle is gone. */
  function CloseCall(c: Conn, code: nat, reason: string): Conn {
    if |c.queue| < OUTBOX_MAX && !c.phase.Done? then c.(queue := c.queue + [Close(code, reason)], held := false)
    else c.(held := false)
  }

  function Drop(c: Conn): Conn {
    c.(held := false)
  }

  predicate Ready(c: Conn) {
    c.wake && !c.notified && !c.closeSeen && (c.inbox != [] || Ended(c.state))
  }

  function Notices(c: Conn): Conn {
    if Ready(c) then c.(notified := true, log := c.log.(marks := c.log.marks + [Noticed])) else c
  }

  // ----- runs -----

  datatype Action =
    | ADialed(status: nat) | ADialFailed(why: string) | ALook | AFrame(frame: Frame) | AWoken
    | ATakeOut(failure: Option<string>) | ASilent(sentence: string) | APass(frame: Frame) | ASetClosed
    | ARecv(wait: bool) | ASend(message: Message) | AClose(code: nat, reason: string) | ADrop | ANotices

  /** Any branch that is ready may be taken; the owner acts while it holds the handle. */
  predicate Possible(c: Conn, a: Action) {
    match a
    case ADialed(_) => c.phase.Dialing?
    case ADialFailed(_) => c.phase.Dialing?
    case ALook => c.phase.Top?
    case AFrame(_) => c.phase.Select? && !c.phase.full
    case AWoken => c.phase.Select? && c.phase.full && c.permit
    case ATakeOut(_) => c.phase.Select? && (c.queue != [] || !c.held)
    case ASilent(_) => c.phase.Select?
    case APass(_) => c.phase.Ending? && c.log.said != []
    case ASetClosed => c.phase.Ending?
    case ARecv(_) => c.held
    case ASend(_) => c.held
    case AClose(_, _) => c.held
    case ADrop => c.held
    case ANotices => c.held
  }

  function Step(c: Conn, a: Action): Conn {
    match a
    case ADialed(status) => Dialed(c, status)
    case ADialFailed(why) => DialFailed(c, why)
    case ALook => Look(c)
    case AFrame(frame) => Received(c, frame)
    case AWoken => Woken(c)
    case ATakeOut(failure) => TakeOut(c, failure)
    case ASilent(sentence) => Silent(c, sentence)
    case APass(frame) => Passed(c, frame)
    case ASetClosed => SetClosed(c)
    case ARecv(wait) => Recv(c, wait)
    case ASend(m) => SendOne(c, m)
    case AClose(code, reason) => CloseCall(c, code, reason)
    case ADrop => Drop(c)
    case ANotices => Notices(c)
  }

  ghost predicate Runs(c: Conn, actions: seq<Action>)
    decreases |actions|
  {
    actions == [] || (Possible(c, actions[0]) && Runs(Step(c, actions[0]), actions[1..]))
  }

  function After(c: Conn, actions: seq<Action>): Conn
    decreases |actions|
  {
    if actions == [] then c else After(Step(c, actions[0]), actions[1..])
  }

  // ----- what every run keeps -----

  function Given(answers: seq<Answer>): seq<Message> {
    if answers == [] then [] else Given(answers[..|answers| - 1]) + answers[|answers| - 1].messages
  }

  function Messages(queue: seq<Out>): seq<Message> {
    if queue == [] then [] else MessageIn(queue[0]) + Messages(queue[1..])
  }

  ghost predicate Bounded(c: Conn) {
    |c.inbox| <= INBOX_MAX && |c.queue| <= OUTBOX_MAX
  }

  /** A task that may read has room; one that waits for room is not forgotten. */
  ghost predicate NoLostWake(c: Conn) {
    && (c.phase == Select(false) ==> |c.inbox| < INBOX_MAX)
    && (c.phase == Select(true) ==> |c.inbox| == INBOX_MAX || c.permit)
  }

  /** What is read goes to the inbox in order, until this side's close frame went out. */
  ghost predicate InOrder(c: Conn) {
    && Given(c.log.answers) + c.inbox == c.log.pushed
    && c.log.pushed <= c.log.read && (c.log.said == [] ==> c.log.read == c.log.pushed)
  }

  ghost predicate PhaseSays(c: Conn) {
    && (c.phase.Dialing? <==> c.state.Connecting?)
    && (c.phase.Done? <==> Ended(c.state))
  }

  /** Once an answer said closed, the inbox is empty for good and every later answer says the same. */
  ghost predicate ClosedLast(c: Conn) {
    && (c.closeSeen <==> exists k :: 0 <= k < |c.log.answers| && c.log.answers[k].closed.Some?)
    && (c.closeSeen ==> c.inbox == [] && Ended(c.state))
    && (forall k :: 0 <= k < |c.log.answers| && c.log.answers[k].closed.Some? ==>
         c.log.answers[k].closed == ClosedAnswer(c.state))
    && forall j, k :: 0 <= j < k < |c.log.answers| && c.log.answers[j].closed.Some? ==>
         c.log.answers[k] == Answer([], c.log.answers[j].closed)
  }

  /** Between two notices the owner looked; nothing is told after the close was seen. */
  ghost predicate NoticedOnce(c: Conn) {
    var marks := c.log.marks;
    && (c.notified <==> marks != [] && marks[|marks| - 1] == Noticed)
    && (forall k :: 0 < k < |marks| && marks[k] == Noticed ==> marks[k - 1] == Looked)
    && (c.closeSeen ==> !c.notified)
  }

  /** What was accepted is what the wire carried and what is still queued, in order, until a send failed. */
  ghost predicate SentInOrder(c: Conn) {
    && c.log.wire <= c.log.accepted
    && (!c.phase.Ending? && !c.phase.Done? ==> c.log.accepted == c.log.wire + Messages(c.queue))
    && (c.held ==> forall k :: 0 <= k < |c.queue| ==> c.queue[k].Send?)
  }

  /** One close frame at most goes out, and it ends the loop; while the handle is held it is not the owner's. */
  ghost predicate SaidLast(c: Conn) {
    && (c.log.said == [] || ((c.phase.Ending? || c.phase.Done?) && |c.log.said| == 1))
    && (c.held ==> c.log.said == [] || c.log.said == [1001])
  }

  ghost predicate Inv(c: Conn) {
    && Bounded(c) && NoLostWake(c) && InOrder(c) && PhaseSays(c) && ClosedLast(c) && NoticedOnce(c)
    && SentInOrder(c) && SaidLast(c)
  }

  lemma GivenAppend(answers: seq<Answer>, a: Answer)
    ensures Given(answers + [a]) == Given(answers) + a.messages
  {
    assert (answers + [a])[..|answers|] == answers;
  }

  function MessageIn(o: Out): seq<Message> {
    if o.Send? then [o.message] else []
  }

  lemma {:induction false} MessagesAppend(queue: seq<Out>, o: Out)
    ensures Messages(queue + [o]) == Messages(queue) + MessageIn(o)
  {
    hide MessageIn;
    if queue == [] {
      assert queue + [o] == [o] && [o][1..] == [];
      assert MessageIn(o) + [] == MessageIn(o) && [] + MessageIn(o) == MessageIn(o);
    } else {
      assert (queue + [o])[1..] == queue[1..] + [o] && (queue + [o])[0] == queue[0];
      MessagesAppend(queue[1..], o);
      assert Messages(queue + [o]) == MessageIn(queue[0]) + (Messages(queue[1..]) + MessageIn(o));
    }
  }

  predicate OfOwner(a: Action) {
    a.ARecv? || a.ASend? || a.AClose? || a.ADrop? || a.ANotices?
  }

  /** What each step leaves as it was. */
  ghost predicate Leaves(c: Conn, d: Conn, a: Action) {
    && (!a.AFrame? && !a.ARecv? ==> d.inbox == c.inbox)
    && (!a.AFrame? ==> d.log.pushed == c.log.pushed)
    && (!a.AFrame? && !a.APass? ==> d.log.read == c.log.read)
    && (!a.ARecv? ==> d.log.answers == c.log.answers && d.closeSeen == c.closeSeen)
    && (!a.ARecv? && !a.ANotices? ==> d.notified == c.notified && d.log.marks == c.log.marks)
    && (!a.ATakeOut? && !a.ASend? && !a.AClose? ==> d.queue == c.queue)
    && (!a.ATakeOut? ==> d.log.wire == c.log.wire)
    && (!a.ATakeOut? && !a.ASilent? ==> d.log.said == c.log.said)
    && (!a.ASend? ==> d.log.accepted == c.log.accepted)
    && (!a.ADialed? && !a.ADialFailed? && !a.ASetClosed? ==> d.state == c.state)
    && (OfOwner(a) ==> d.phase == c.phase)
    && (d.held ==> c.held)
  }

  lemma StepLeaves(c: Conn, a: Action)
    ensures Leaves(c, Step(c, a), a)
  {
    hide Leaves, Received, Passed, TakeOut, Recv, SendOne, CloseCall, Notices, Dialed, DialFailed, Look, Woken, Silent, SetClosed, Drop;
    match a
    case AFrame(frame) => ReceivedLeaves(c, frame);
    case APass(frame) => PassedLeaves(c, frame);
    case ATakeOut(failure) => TakeOutLeaves(c, failure);
    case ARecv(wait) => RecvLeaves(c, wait);
    case ASend(m) => SendLeaves(c, m);
    case AClose(code, reason) => CloseLeaves(c, code, reason);
    case ANotices => NoticesLeave(c);
    case _ => OthersLeave(c, a);
  }

  lemma ReceivedLeaves(c: Conn, frame: Frame)
    ensures Leaves(c, Received(c, frame), AFrame(frame))
  {
    var d := Received(c, frame);
    assert d == c.(inbox := d.inbox, phase := d.phase, log := c.log.(read := d.log.read, pushed := d.log.pushed));
    hide Received;
  }

  lemma PassedLeaves(c: Conn, frame: Frame)
    ensures Leaves(c, Passed(c, frame), APass(frame))
  {
    var d := Passed(c, frame);
    assert d == c.(log := c.log.(read := d.log.read));
    hide Passed;
  }

  lemma TakeOutLeaves(c: Conn, failure: Option<string>)
    ensures Leaves(c, TakeOut(c, failure), ATakeOut(failure))
  {
    hide Carried, EndedBy, OfOwner;
    assert !OfOwner(ATakeOut(failure)) by { NotOfOwner(failure); }
  }

  lemma NotOfOwner(failure: Option<string>)
    ensures !OfOwner(ATakeOut(failure))
  {
  }

  lemma RecvLeaves(c: Conn, wait: bool)
    ensures Leaves(c, Recv(c, wait), ARecv(wait))
  {
    hide ClosedAnswer, RecvAnswer;
  }

  lemma SendLeaves(c: Conn, m: Message)
    ensures Leaves(c, SendOne(c, m), ASend(m))
  {
    hide SendAnswer;
  }

  lemma CloseLeaves(c: Conn, code: nat, reason: string)
    ensures Leaves(c, CloseCall(c, code, reason), AClose(code, reason))
  {
  }

  lemma NoticesLeave(c: Conn)
    ensures Leaves(c, Notices(c), ANotices)
  {
    hide Ready;
  }

  lemma OthersLeave(c: Conn, a: Action)
    requires !a.AFrame? && !a.APass? && !a.ATakeOut? && !a.ARecv? && !a.ASend? && !a.AClose? && !a.ANotices?
    ensures Leaves(c, Step(c, a), a)
  {
    hide Received, Passed, TakeOut, Recv, SendOne, CloseCall, Notices;
  }

  lemma {:induction false} KeepsBounded(c: Conn, a: Action)
    requires Bounded(c) && NoLostWake(c) && Possible(c, a)
    ensures Bounded(Step(c, a))
  {
    StepLeaves(c, a);
    hide Step, Possible;
    match a
    case AFrame(frame) => ReceivedBounded(c, frame);
    case ATakeOut(failure) => TakeOutBounded(c, failure);
    case ARecv(wait) => RecvBounded(c, wait);
    case ASend(m) => SendBounded(c, m);
    case AClose(code, reason) => CloseBounded(c, code, reason);
    case _ => SameBounded(c, Step(c, a));
  }

  lemma ReceivedBounded(c: Conn, frame: Frame)
    requires Bounded(c) && NoLostWake(c) && Possible(c, AFrame(frame))
    ensures Bounded(Step(c, AFrame(frame)))
  {
  }

  lemma TakeOutBounded(c: Conn, failure: Option<string>)
    requires Bounded(c)
    ensures Bounded(Step(c, ATakeOut(failure)))
  {
  }

  lemma RecvBounded(c: Conn, wait: bool)
    requires Bounded(c)
    ensures Bounded(Step(c, ARecv(wait)))
  {
    hide ClosedAnswer, RecvAnswer;
  }

  lemma SendBounded(c: Conn, m: Message)
    requires Bounded(c)
    ensures Bounded(Step(c, ASend(m)))
  {
  }

  lemma CloseBounded(c: Conn, code: nat, reason: string)
    requires Bounded(c)
    ensures Bounded(Step(c, AClose(code, reason)))
  {
  }

  lemma SameBounded(c: Conn, d: Conn)
    requires Bounded(c) && d.inbox == c.inbox && d.queue == c.queue
    ensures Bounded(d)
  {
  }

  lemma {:induction false} KeepsWake(c: Conn, a: Action)
    requires Bounded(c) && NoLostWake(c) && Possible(c, a)
    ensures NoLostWake(Step(c, a))
  {
    hide Received, TakeOut, Recv, SendOne, CloseCall, Notices, Dialed, DialFailed, Look, Woken, Silent, SetClosed, Drop;
    match a
    case AFrame(frame) => ReceivedWakes(c, frame);
    case ATakeOut(failure) => TakeOutWakes(c, failure);
    case ARecv(wait) => RecvWakes(c, wait);
    case ALook => LookWakes(c);
    case _ => OtherWakes(c, a);
  }

  lemma ReceivedWakes(c: Conn, frame: Frame)
    ensures NoLostWake(Received(c, frame))
  {
  }

  lemma TakeOutWakes(c: Conn, failure: Option<string>)
    ensures NoLostWake(TakeOut(c, failure))
  {
  }

  lemma RecvWakes(c: Conn, wait: bool)
    requires Bounded(c) && NoLostWake(c)
    ensures NoLostWake(Recv(c, wait))
  {
    hide ClosedAnswer, RecvAnswer;
  }

  lemma LookWakes(c: Conn)
    requires Bounded(c)
    ensures NoLostWake(Look(c))
  {
  }

  lemma OtherWakes(c: Conn, a: Action)
    requires NoLostWake(c) && Possible(c, a) && !a.AFrame? && !a.ATakeOut? && !a.ARecv? && !a.ALook?
    ensures NoLostWake(Step(c, a))
  {
  }

  lemma {:induction false} KeepsPhase(c: Conn, a: Action)
    requires PhaseSays(c) && Possible(c, a)
    ensures PhaseSays(Step(c, a))
  {
    if OfOwner(a) {
      StepLeaves(c, a);
      hide Step, Possible;
      SamePhase(c, Step(c, a));
    } else {
      TaskPhase(c, a);
    }
  }

  lemma TaskPhase(c: Conn, a: Action)
    requires PhaseSays(c) && Possible(c, a) && !OfOwner(a)
    ensures PhaseSays(Step(c, a))
  {
    hide Received, TakeOut;
    match a
    case AFrame(frame) => ReceivedPhase(c, frame);
    case ATakeOut(failure) => TakeOutPhase(c, failure);
    case _ =>
  }

  lemma ReceivedPhase(c: Conn, frame: Frame)
    requires PhaseSays(c) && c.phase.Select?
    ensures PhaseSays(Received(c, frame))
  {
  }

  lemma TakeOutPhase(c: Conn, failure: Option<string>)
    requires PhaseSays(c) && c.phase.Select?
    ensures PhaseSays(TakeOut(c, failure))
  {
  }

  lemma SamePhase(c: Conn, d: Conn)
    requires PhaseSays(c) && d.phase == c.phase && d.state == c.state
    ensures PhaseSays(d)
  {
  }

  lemma {:induction false} KeepsOrder(c: Conn, a: Action)
    requires InOrder(c) && SaidLast(c) && Possible(c, a)
    ensures InOrder(Step(c, a))
  {
    StepLeaves(c, a);
    MoreSaid(c, a);
    hide InOrder, Recv, Received, Passed, SaidLast;
    match a
    case ARecv(wait) =>
      hide Possible;
      RecvInOrder(c, wait);
    case AFrame(frame) => ReceivedInOrder(c, frame);
    case APass(frame) => PassedInOrder(c, frame);
    case _ =>
      hide Step, Possible;
      SameOrder(c, Step(c, a));
  }

  /** What was said stays said. */
  lemma MoreSaid(c: Conn, a: Action)
    ensures Step(c, a).log.said == [] ==> c.log.said == []
  {
    StepLeaves(c, a);
    hide Carried, EndedBy;
    if !a.ATakeOut? && !a.ASilent? {
      hide Step;
    }
  }

  lemma RecvInOrder(c: Conn, wait: bool)
    requires InOrder(c)
    ensures InOrder(Recv(c, wait))
  {
    hide ClosedAnswer;
    var answer := RecvAnswer(c, wait);
    if answer.Some? {
      GivenAppend(c.log.answers, answer.value);
    }
    assert Given(c.log.answers) + c.inbox + [] == c.log.pushed;
  }

  lemma ReceivedInOrder(c: Conn, frame: Frame)
    requires InOrder(c) && SaidLast(c) && c.phase.Select?
    ensures InOrder(Received(c, frame))
  {
    if frame.Data? {
      assert Given(c.log.answers) + (c.inbox + [frame.message]) == Given(c.log.answers) + c.inbox + [frame.message];
    }
  }

  lemma SameOrder(c: Conn, d: Conn)
    requires InOrder(c) && d.inbox == c.inbox && d.log.answers == c.log.answers && d.log.pushed == c.log.pushed
    requires d.log.read == c.log.read && (d.log.said == [] ==> c.log.said == [])
    ensures InOrder(d)
  {
  }

  lemma PassedInOrder(c: Conn, frame: Frame)
    requires InOrder(c) && c.log.said != []
    ensures InOrder(Passed(c, frame))
  {
  }

  lemma {:induction false} KeepsClosedLast(c: Conn, a: Action)
    requires ClosedLast(c) && PhaseSays(c) && Possible(c, a)
    ensures ClosedLast(Step(c, a))
  {
    match a
    case ARecv(wait) =>
      var next := Step(c, a);
      var answer := RecvAnswer(c, wait);
      if answer.Some? {
        var last := |c.log.answers|;
        assert next.log.answers[last] == answer.value;
        if next.closeSeen && !c.closeSeen {
          assert next.log.answers[last].closed.Some?;
        }
        if c.closeSeen {
          var k :| 0 <= k < last && c.log.answers[k].closed.Some?;
          assert next.log.answers[k].closed.Some?;
        }
        if exists k :: 0 <= k < |next.log.answers| && next.log.answers[k].closed.Some? {
          var k :| 0 <= k < |next.log.answers| && next.log.answers[k].closed.Some?;
          assert k < last ==> c.log.answers[k].closed.Some?;
        }
      }
    case _ =>
      ClosedStays(c, a);
      hide ClosedLast, Step, Possible;
      SameClosed(c, Step(c, a));
  }

  /** A close seen stays what it was: only `recv` answers, and an ended task reads no more. */
  lemma ClosedStays(c: Conn, a: Action)
    requires ClosedLast(c) && PhaseSays(c) && Possible(c, a) && !a.ARecv?
    ensures Step(c, a).log.answers == c.log.answers && Step(c, a).closeSeen == c.closeSeen
    ensures Ended(c.state) ==> Step(c, a).state == c.state
    ensures c.closeSeen ==> Step(c, a).inbox == c.inbox
  {
    StepLeaves(c, a);
    hide Step, ClosedAnswer;
  }

  lemma SameClosed(c: Conn, d: Conn)
    requires ClosedLast(c) && d.log.answers == c.log.answers && d.closeSeen == c.closeSeen
    requires (Ended(c.state) ==> d.state == c.state) && (c.closeSeen ==> d.inbox == c.inbox)
    ensures ClosedLast(d)
  {
  }

  lemma {:induction false} KeepsNotices(c: Conn, a: Action)
    requires NoticedOnce(c) && Possible(c, a)
    ensures NoticedOnce(Step(c, a))
  {
    hide ClosedAnswer;
    StepLeaves(c, a);
    hide NoticedOnce, Possible, Recv, Notices;
    match a
    case ARecv(wait) => RecvNotices(c, wait);
    case ANotices => NoticesOnce(c);
    case _ =>
      hide Step;
      SameNotices(c, Step(c, a));
  }

  lemma RecvNotices(c: Conn, wait: bool)
    requires NoticedOnce(c)
    ensures NoticedOnce(Recv(c, wait))
  {
    hide ClosedAnswer, RecvAnswer;
  }

  lemma NoticesOnce(c: Conn)
    requires NoticedOnce(c)
    ensures NoticedOnce(Notices(c))
  {
  }

  lemma SameNotices(c: Conn, d: Conn)
    requires NoticedOnce(c) && d.log.marks == c.log.marks && d.notified == c.notified && d.closeSeen == c.closeSeen
    ensures NoticedOnce(d)
  {
  }

  lemma {:induction false} KeepsSent(c: Conn, a: Action)
    requires SentInOrder(c) && Possible(c, a)
    ensures SentInOrder(Step(c, a))
  {
    StepLeaves(c, a);
    if !OfOwner(a) && (c.phase.Ending? || c.phase.Done?) { TaskEnds(c, a); }
    hide SentInOrder, SendOne, CloseCall, TakeOut;
    match a
    case ASend(m) => SendInOrder(c, m);
    case AClose(code, reason) => CloseInOrder(c, code, reason);
    case ATakeOut(failure) => TakeOutInOrder(c, failure);
    case _ =>
      hide Step, Possible;
      SameSent(c, Step(c, a));
  }

  /** A task that is ending, or done, does not come back. */
  lemma TaskEnds(c: Conn, a: Action)
    requires Possible(c, a) && !OfOwner(a) && (c.phase.Ending? || c.phase.Done?)
    ensures Step(c, a).phase.Ending? || Step(c, a).phase.Done?
  {
  }

  lemma SendInOrder(c: Conn, m: Message)
    requires SentInOrder(c)
    ensures SentInOrder(SendOne(c, m))
  {
    MessagesAppend(c.queue, Send(m));
    assert c.log.wire + (Messages(c.queue) + [m]) == c.log.wire + Messages(c.queue) + [m];
  }

  lemma CloseInOrder(c: Conn, code: nat, reason: string)
    requires SentInOrder(c)
    ensures SentInOrder(CloseCall(c, code, reason))
  {
    MessagesAppend(c.queue, Close(code, reason));
    hide Messages;
    assert MessageIn(Close(code, reason)) == [];
    assert Messages(c.queue) + [] == Messages(c.queue);
  }

  lemma TakeOutInOrder(c: Conn, failure: Option<string>)
    requires SentInOrder(c) && Possible(c, ATakeOut(failure))
    ensures SentInOrder(TakeOut(c, failure))
  {
    if c.queue != [] && c.queue[0].Send? {
      assert c.log.wire + ([c.queue[0].message] + Messages(c.queue[1..]))
          == c.log.wire + [c.queue[0].message] + Messages(c.queue[1..]);
    }
  }

  lemma SameSent(c: Conn, d: Conn)
    requires SentInOrder(c) && d.queue == c.queue && d.log.accepted == c.log.accepted && d.log.wire == c.log.wire
    requires (d.held ==> c.held) && (c.phase.Ending? || c.phase.Done? ==> d.phase.Ending? || d.phase.Done?)
    ensures SentInOrder(d)
  {
  }

  lemma {:induction false} KeepsSaid(c: Conn, a: Action)
    requires SaidLast(c) && SentInOrder(c) && Possible(c, a)
    ensures SaidLast(Step(c, a))
  {
    StepLeaves(c, a);
    if a.ATakeOut? {
      TakeOutSaid(c, a.failure);
    } else if a.ASilent? {
      hide SentInOrder;
    } else {
      SaidStays(c, a);
    }
  }

  lemma SaidStays(c: Conn, a: Action)
    requires SaidLast(c) && Possible(c, a) && !a.ATakeOut? && !a.ASilent?
    ensures SaidLast(Step(c, a))
  {
    StepLeaves(c, a);
    if !OfOwner(a) && (c.phase.Ending? || c.phase.Done?) { TaskEnds(c, a); }
    hide Step, Possible;
  }

  lemma TakeOutSaid(c: Conn, failure: Option<string>)
    requires SaidLast(c) && SentInOrder(c) && Possible(c, ATakeOut(failure))
    ensures SaidLast(TakeOut(c, failure))
  {
    assert c.log.said == [];
    hide SentInOrder;
  }

  lemma {:induction false} StepKeeps(c: Conn, a: Action)
    requires Inv(c) && Possible(c, a)
    ensures Inv(Step(c, a))
  {
    hide Step, Bounded, NoLostWake, InOrder, PhaseSays, ClosedLast, NoticedOnce, SentInOrder, SaidLast, Possible;
    KeepsBounded(c, a);
    KeepsWake(c, a);
    KeepsPhase(c, a);
    KeepsOrder(c, a);
    KeepsClosedLast(c, a);
    KeepsNotices(c, a);
    KeepsSent(c, a);
    KeepsSaid(c, a);
  }

  lemma {:induction false} EveryRunKeeps(c: Conn, actions: seq<Action>)
    requires Inv(c) && Runs(c, actions)
    ensures Inv(After(c, actions))
    decreases |actions|
  {
    hide Inv, Step, Possible;
    if actions != [] {
      StepKeeps(c, actions[0]);
      EveryRunKeeps(Step(c, actions[0]), actions[1..]);
    }
  }

  // ----- what follows -----

  ghost predicate Reachable(c: Conn) {
    exists wake, actions :: Runs(Begun(wake), actions) && c == After(Begun(wake), actions)
  }

  lemma BegunKeeps(wake: bool)
    ensures Inv(Begun(wake))
  {
  }

  lemma InvPhase(c: Conn)
    requires Inv(c)
    ensures PhaseSays(c)
  {
  }

  lemma {:induction false} ReachableKeeps(c: Conn)
    requires Reachable(c)
    ensures Inv(c)
  {
    hide Inv, Runs, After, Begun;
    var wake, actions :| Runs(Begun(wake), actions) && c == After(Begun(wake), actions);
    BegunKeeps(wake);
    EveryRunKeeps(Begun(wake), actions);
  }

  /**
   Whatever the interleaving: the inbox keeps its bound, and what was handed out, then
   what waits, is what the loop read, in order. That is all that was ever read, unless
   a close frame of this side went out: what comes while the far end's is awaited is dropped.
   */
  lemma InboxHolds(c: Conn)
    requires Reachable(c)
    ensures |c.inbox| <= INBOX_MAX && Given(c.log.answers) + c.inbox == c.log.pushed <= c.log.read
    ensures c.log.read != c.log.pushed ==> c.log.said != [] && !Live(c)
  {
    hide Reachable, Given;
    ReachableKeeps(c);
  }

  /** A task waiting for room finds the inbox still full, or its wake waiting for it. */
  lemma WaitingIsWoken(c: Conn)
    requires Reachable(c) && c.phase == Select(true)
    ensures |c.inbox| == INBOX_MAX || Possible(c, AWoken)
  {
    hide Reachable, Given;
    ReachableKeeps(c);
  }

  /** After the owner drains, the waiting task wakes and reads frames again. */
  lemma DrainReadsAgain(c: Conn, wait: bool, frame: Frame)
    requires Reachable(c) && c.phase == Select(true) && c.held
    ensures var drained := Step(c, ARecv(wait));
      && Possible(drained, AWoken)
      && var looked := Step(Step(drained, AWoken), ALook);
         Possible(looked, AFrame(frame))
  {
    hide Reachable, Given;
    ReachableKeeps(c);
  }

  /** Once an answer said closed, every later answer is empty and says the same close; before, what was read was all handed out. */
  lemma ClosedIsLast(c: Conn, j: nat)
    requires Reachable(c) && j < |c.log.answers| && c.log.answers[j].closed.Some?
    ensures c.inbox == [] && Given(c.log.answers) == c.log.pushed && c.log.answers[j].closed == ClosedAnswer(c.state)
    ensures forall k :: j < k < |c.log.answers| ==> c.log.answers[k] == Answer([], c.log.answers[j].closed)
  {
    hide Reachable, Given;
    ReachableKeeps(c);
    assert Given(c.log.answers) + [] == Given(c.log.answers);
  }

  /** The states a connection may go through from one. */
  predicate Forward(s: State, t: State) {
    s == t || s.Connecting? || (s.Open? && t.Closed?)
  }

  lemma {:induction false} StepForward(c: Conn, a: Action)
    requires PhaseSays(c) && Possible(c, a)
    ensures Forward(c.state, Step(c, a).state)
    ensures c.state.Connecting? ==> !Step(c, a).state.Closed?
  {
    StepLeaves(c, a);
    match a
    case ADialed(_) =>
    case ADialFailed(_) =>
    case ASetClosed =>
    case _ => hide Step;
  }

  /** Nothing moves a connection back, and how it ended never changes. */
  lemma {:induction false} StateMovesForward(c: Conn, actions: seq<Action>)
    requires Inv(c) && Runs(c, actions)
    ensures Forward(c.state, After(c, actions).state)
    decreases |actions|
  {
    hide Step, Possible, Bounded, NoLostWake, InOrder, ClosedLast, NoticedOnce, SentInOrder, SaidLast;
    if actions != [] {
      StepKeeps(c, actions[0]);
      StepForward(c, actions[0]);
      StateMovesForward(Step(c, actions[0]), actions[1..]);
    }
  }

  /** A connection that was not yet open and is closed now was open in between. */
  lemma {:induction false} OpenBeforeClosed(c: Conn, actions: seq<Action>)
    requires Inv(c) && Runs(c, actions) && c.state.Connecting? && After(c, actions).state.Closed?
    ensures exists i: nat :: i <= |actions| && After(c, actions[..i]).state.Open?
    decreases |actions|
  {
    hide Step, Possible, Bounded, NoLostWake, InOrder, ClosedLast, NoticedOnce, SentInOrder, SaidLast;
    assert actions != [];
    var d, rest := Step(c, actions[0]), actions[1..];
    StepKeeps(c, actions[0]);
    StepForward(c, actions[0]);
    if d.state.Connecting? {
      OpenBeforeClosed(d, rest);
      var i: nat :| i <= |rest| && After(d, rest[..i]).state.Open?;
      assert actions[..i + 1][0] == actions[0] && actions[..i + 1][1..] == rest[..i];
      assert After(c, actions[..i + 1]) == After(d, rest[..i]);
    } else {
      StateMovesForward(d, rest);
      assert d.state.Open?;
      assert actions[..1][0] == actions[0] && actions[..1][1..] == [];
      assert After(d, []) == d;
      assert After(c, actions[..1]).state.Open?;
    }
  }

  /** Only an open connection is ever closed: a dial that failed stays failed. */
  lemma {:induction false} FailedStaysFailed(c: Conn, actions: seq<Action>)
    requires Inv(c) && Runs(c, actions) && c.state.Failed?
    ensures After(c, actions).state == c.state
  {
    StateMovesForward(c, actions);
  }

  // ----- the owner's close -----

  /** A step that ends the loop for a reason of its own: what the far end did, a send that failed, silence, a failed dial. */
  predicate Interrupts(c: Conn, a: Action) {
    match a
    case ADialFailed(_) => true
    case AFrame(frame) => !frame.Data? && !frame.Control?
    case ATakeOut(failure) => c.queue != [] && c.queue[0].Send? && failure.Some?
    case ASilent(_) => true
    case _ => false
  }

  ghost predicate Interrupted(c: Conn, actions: seq<Action>)
    decreases |actions|
  {
    actions != [] && (Interrupts(c, actions[0]) || Interrupted(Step(c, actions[0]), actions[1..]))
  }

  /** The loop is still to be left. */
  predicate Live(c: Conn) {
    !c.phase.Ending? && !c.phase.Done?
  }

  /** The handle is gone; of what is queued, only the last may be the owner's close. */
  ghost predicate LetGo(c: Conn, close: Option<(nat, string)>) {
    && !c.held
    && if close.None? then forall k :: 0 <= k < |c.queue| ==> c.queue[k].Send?
       else |c.queue| > 0 && c.queue[|c.queue| - 1] == Close(close.value.0, close.value.1)
            && forall k :: 0 <= k < |c.queue| - 1 ==> c.queue[k].Send?
  }

  /** What the run ends with when nothing interrupts it. */
  function Parting(close: Option<(nat, string)>): (nat, string) {
    if close.Some? then close.value else (1001, "")
  }

  /** An ended loop only sets how it ended. */
  lemma {:induction false} EndingRun(c: Conn, actions: seq<Action>)
    requires !c.held && !Live(c) && Runs(c, actions)
    ensures After(c, actions).log.said == c.log.said && !Interrupted(c, actions) && !Live(After(c, actions))
    ensures c.phase.Ending? && After(c, actions).phase.Done? ==> After(c, actions).state == Closed(c.phase.code, c.phase.reason)
    decreases |actions|
  {
    if actions != [] {
      assert c.phase.Ending? && (actions[0].ASetClosed? || actions[0].APass?);
      EndingRun(Step(c, actions[0]), actions[1..]);
    }
  }

  /** What one task step does to a queue its owner let go of. */
  ghost predicate LetsGo(c: Conn, d: Conn, a: Action, close: Option<(nat, string)>) {
    && !d.held
    && if Interrupts(c, a) then !Live(d) && d.log.said == (if a.ASilent? then c.log.said + [1001] else c.log.said)
       else if Live(d) then LetGo(d, close) && d.log.said == c.log.said
       else d.log.said == c.log.said + [Parting(close).0] && d.phase == Ending(Parting(close).0, Parting(close).1)
  }

  lemma {:induction false} LetGoStep(c: Conn, a: Action, close: Option<(nat, string)>)
    requires LetGo(c, close) && Live(c) && Possible(c, a)
    ensures LetsGo(c, Step(c, a), a, close)
  {
    hide TakeOut, Received;
    match a
    case ATakeOut(failure) => LetGoTakeOut(c, failure, close);
    case AFrame(frame) => LetGoFrame(c, frame, close);
    case _ =>
  }

  lemma LetGoFrame(c: Conn, frame: Frame, close: Option<(nat, string)>)
    requires LetGo(c, close) && c.phase.Select?
    ensures LetsGo(c, Received(c, frame), AFrame(frame), close)
  {
    hide Parting;
  }

  lemma LetGoTakeOut(c: Conn, failure: Option<string>, close: Option<(nat, string)>)
    requires LetGo(c, close) && Live(c)
    ensures LetsGo(c, TakeOut(c, failure), ATakeOut(failure), close)
  {
    if c.queue != [] && Carried(c.queue[0], failure) {
      var d := TakeOut(c, failure);
      assert d.queue == c.queue[1..] && Live(d);
      assert forall k :: 0 <= k < |d.queue| ==> d.queue[k] == c.queue[k + 1];
      assert LetGo(d, close);
    }
  }

  /** A run after the owner let go says and ends with the owner's close, or 1001, unless something interrupts it. */
  lemma {:induction false} LetGoRun(c: Conn, actions: seq<Action>, close: Option<(nat, string)>)
    requires LetGo(c, close) && Live(c) && Runs(c, actions)
    ensures var v := After(c, actions);
      if Live(v) then v.log.said == c.log.said
      else if Interrupted(c, actions) then v.log.said == c.log.said || v.log.said == c.log.said + [1001]
      else v.log.said == c.log.said + [Parting(close).0]
           && (v.phase.Done? ==> v.state == Closed(Parting(close).0, Parting(close).1))
    decreases |actions|
  {
    if actions != [] {
      var next := Step(c, actions[0]);
      LetGoStep(c, actions[0], close);
      hide Step, LetGo, Possible, Interrupts;
      if Live(next) {
        LetGoRun(next, actions[1..], close);
      } else {
        EndingRun(next, actions[1..]);
      }
    }
  }

  /**
   The owner's own close code goes out on the wire exactly when the outbox had room
   for it, the loop was not already over, and the task left the loop with nothing
   interrupting it before it got there. Then the connection ends with that code;
   with a full outbox the task meets the dropped handle instead, and says 1001.
   `close` takes no 1001 itself.
   */
  lemma {:induction false} CloseCodeExactly(c: Conn, code: nat, reason: string, actions: seq<Action>)
    requires Inv(c) && c.held && code != 1001 && Runs(CloseCall(c, code, reason), actions)
    ensures var d := CloseCall(c, code, reason);
      var v := After(d, actions);
      var room := |c.queue| < OUTBOX_MAX;
      && (v.log.said == [code] <==> room && Live(c) && !Live(v) && !Interrupted(d, actions))
      && (v.log.said == [code] && v.phase.Done? ==> v.state == Closed(code, reason))
      && (!room && Live(c) && v.phase.Done? && !Interrupted(d, actions) ==> v.log.said == [1001] && v.state == Closed(1001, ""))
      && (c.phase.Ending? && v.phase.Done? ==> v.state == Closed(c.phase.code, c.phase.reason))
  {
    assert SaidLast(c) && SentInOrder(c);
    hide Inv, Runs, After, Interrupted;
    var d := CloseCall(c, code, reason);
    assert [1001][0] != [code][0];
    if Live(c) {
      var close := if |c.queue| < OUTBOX_MAX then Some((code, reason)) else None;
      assert LetGo(d, close);
      assert d.log.said == [];
      hide LetGo;
      LetGoRun(d, actions, close);
    } else {
      EndingRun(d, actions);
    }
  }

  /** Room alone is not enough: the far end's close, read first, wins. */
  lemma FarCloseWins()
    ensures exists c :: Reachable(c) && FarCloseOvertakes(c)
  {
    var actions := [ADialed(101), ALook, AFrame(CloseFrame(None))];
    var c1 := Step(Begun(false), actions[0]);
    var c2 := Step(c1, actions[1]);
    var c := Step(c2, actions[2]);
    RunsThree(Begun(false), actions[0], actions[1], actions[2]);
    assert actions == [actions[0], actions[1], actions[2]];
    assert Reachable(c);
    var d := CloseCall(c, 3000, "");
    assert [ASetClosed][1..] == [];
    assert After(Step(d, ASetClosed), []) == Step(d, ASetClosed) && Runs(Step(d, ASetClosed), []);
    assert Runs(d, [ASetClosed]) && After(d, [ASetClosed]) == Step(d, ASetClosed);
    assert FarCloseOvertakes(c);
  }

  /** Open, held, with an empty outbox; and the owner's 3000 is neither sent nor what the connection ends with. */
  ghost predicate FarCloseOvertakes(c: Conn) {
    && c.held && c.state.Open? && c.queue == []
    && var d := CloseCall(c, 3000, "");
      Runs(d, [ASetClosed]) && After(d, [ASetClosed]).state == Closed(1005, "") && After(d, [ASetClosed]).log.said == []
  }

  lemma RunsThree(c: Conn, x: Action, y: Action, z: Action)
    requires Possible(c, x) && Possible(Step(c, x), y) && Possible(Step(Step(c, x), y), z)
    ensures Runs(c, [x, y, z]) && After(c, [x, y, z]) == Step(Step(Step(c, x), y), z)
  {
    hide Possible, Step;
    var d := Step(Step(Step(c, x), y), z);
    assert [x, y, z][1..] == [y, z] && [y, z][1..] == [z] && [z][1..] == [];
    assert Runs(d, []) && After(d, []) == d;
    assert Runs(Step(Step(c, x), y), [z]) && After(Step(Step(c, x), y), [z]) == d;
    assert Runs(Step(c, x), [y, z]) && After(Step(c, x), [y, z]) == d;
  }

  // ----- and some run gets there -----

  /** The task takes what is queued, each send going well, until it ends. */
  function Draining(c: Conn): seq<Action>
    requires c.phase.Select?
    decreases |c.queue|
  {
    var next := TakeOut(c, None);
    if next.phase.Top? then [ATakeOut(None), ALook] + Draining(Look(next)) else [ATakeOut(None), ASetClosed]
  }

  /** From wherever the task stands in its loop, or before it: the dial succeeds, it looks, and drains. */
  function Leaving(c: Conn): seq<Action>
    requires Live(c)
  {
    match c.phase
    case Dialing => [ADialed(101), ALook] + Draining(Look(Dialed(c, 101)))
    case Top => [ALook] + Draining(Look(c))
    case Select(_) => Draining(c)
  }

  lemma OneMore(c: Conn, x: Action, rest: seq<Action>)
    requires Possible(c, x) && !Interrupts(c, x) && Runs(Step(c, x), rest) && !Interrupted(Step(c, x), rest)
    ensures Runs(c, [x] + rest) && !Interrupted(c, [x] + rest) && After(c, [x] + rest) == After(Step(c, x), rest)
  {
    hide Possible, Step, Interrupts;
    assert ([x] + rest)[1..] == rest;
  }

  lemma {:induction false} LeavingRuns(c: Conn)
    requires Live(c) && !c.held
    ensures Runs(c, Leaving(c)) && After(c, Leaving(c)).phase.Done? && !Interrupted(c, Leaving(c))
  {
    hide Runs, After, Interrupted, Draining;
    match c.phase
    case Dialing =>
      var d := Dialed(c, 101);
      DrainingRuns(Look(d));
      TwoMore(c, ADialed(101), ALook, Draining(Look(d)));
    case Top =>
      DrainingRuns(Look(c));
      OneMore(c, ALook, Draining(Look(c)));
    case Select(_) => DrainingRuns(c);
  }

  lemma TwoMore(c: Conn, x: Action, y: Action, rest: seq<Action>)
    requires Possible(c, x) && Possible(Step(c, x), y) && !Interrupts(c, x) && !Interrupts(Step(c, x), y)
    requires var d := Step(Step(c, x), y);
      Runs(d, rest) && !Interrupted(d, rest)
    ensures Runs(c, [x, y] + rest) && !Interrupted(c, [x, y] + rest)
    ensures After(c, [x, y] + rest) == After(Step(Step(c, x), y), rest)
  {
    hide Possible, Step, Interrupts;
    var all := [x, y] + rest;
    assert all[1..] == [y] + rest && all[1..][0] == y && all[1..][1..] == rest;
    assert Runs(Step(c, x), all[1..]) && !Interrupted(Step(c, x), all[1..]);
    assert After(Step(c, x), all[1..]) == After(Step(Step(c, x), y), rest);
  }

  lemma {:induction false} DrainingRuns(c: Conn)
    requires c.phase.Select? && !c.held
    ensures Runs(c, Draining(c)) && After(c, Draining(c)).phase.Done? && !Interrupted(c, Draining(c))
    decreases |c.queue|
  {
    var next := TakeOut(c, None);
    assert Possible(c, ATakeOut(None)) && Step(c, ATakeOut(None)) == next && !Interrupts(c, ATakeOut(None));
    if next.phase.Top? {
      DrainingRuns(Look(next));
      hide TakeOut, Interrupts;
      assert !Interrupts(next, ALook) by { LookInterruptsNothing(next); }
      TwoMore(c, ATakeOut(None), ALook, Draining(Look(next)));
    } else {
      LastRuns(c);
    }
  }

  lemma LookInterruptsNothing(c: Conn)
    ensures !Interrupts(c, ALook)
  {
  }

  lemma LastRuns(c: Conn)
    requires c.phase.Select? && !c.held && !TakeOut(c, None).phase.Top?
    ensures var actions := [ATakeOut(None), ASetClosed];
      Runs(c, actions) && After(c, actions).phase.Done? && !Interrupted(c, actions)
  {
    var last := SetClosed(TakeOut(c, None));
    assert Runs(last, []) && After(last, []) == last && !Interrupted(last, []);
    TwoMore(c, ATakeOut(None), ASetClosed, []);
    assert [ATakeOut(None), ASetClosed] + [] == [ATakeOut(None), ASetClosed];
  }

  /** Some run sends the owner's code exactly when there was room for it and the loop was not over. */
  lemma {:induction false} CloseCanGoOut(c: Conn, code: nat, reason: string)
    requires Inv(c) && c.held && code != 1001
    ensures var d := CloseCall(c, code, reason);
      (exists actions :: Runs(d, actions) && After(d, actions).phase.Done? && After(d, actions).log.said == [code])
      <==> |c.queue| < OUTBOX_MAX && Live(c)
  {
    hide Inv, Runs, After, Leaving, Interrupted;
    var d := CloseCall(c, code, reason);
    if |c.queue| < OUTBOX_MAX && Live(c) {
      LeavingRuns(d);
      CloseCodeExactly(c, code, reason, Leaving(d));
      assert After(d, Leaving(d)).log.said == [code];
    }
    if actions :| Runs(d, actions) && After(d, actions).phase.Done? && After(d, actions).log.said == [code] {
      CloseCodeExactly(c, code, reason, actions);
    }
  }
}
