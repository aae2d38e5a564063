/**
 The connection's two sides as they run: its owner's handle and its task, over what
 they share. Each method is one step of `WsState` and keeps its invariant, so what
 is proved there of every interleaving holds of these objects.
 */
module WsTask {
  import opened Prelude
  import opened WsState

  /** What the task and the calls share, under one lock. */
  class Shared {
    var state: State
    var inbox: seq<Message>
    var permit: bool
    ghost var log: Log

    constructor ()
      ensures state == Connecting && inbox == [] && !permit && log == Log([], [], [], [], [], [], [])
    {
      state, inbox, permit, log := Connecting, [], false, Log([], [], [], [], [], [], []);
    }
  }

  /** The bounded channel from the owner to the task. */
  class Outbox {
    var queue: seq<Out>
    var held: bool
    var taken: bool

    constructor ()
      ensures queue == [] && held && !taken
    {
      queue, held, taken := [], true, false;
    }

    /** Queue one wish, if the task still listens and there is room. */
    method TrySend(wish: Out) returns (ok: bool)
      modifies this`queue
      ensures ok == (!taken && |old(queue)| < OUTBOX_MAX)
      ensures queue == if ok then old(queue) + [wish] else old(queue)
    {
      ok := !taken && |queue| < OUTBOX_MAX;
      if ok {
        queue := queue + [wish];
      }
    }
  }

  /** Both sides, as one state. */
  ghost function View(owner: Owner, task: Task): Conn
    reads owner, task, owner.shared, owner.outbox
  {
    Conn(owner.shared.state, owner.shared.inbox, owner.shared.permit, owner.outbox.queue, owner.outbox.held,
         owner.wake, owner.notified, owner.closeSeen, task.phase, owner.shared.log)
  }

  ghost predicate Joined(owner: Owner, task: Task)
    reads owner.outbox, task
  {
    && owner.shared == task.shared && owner.outbox == task.outbox
    && (owner.outbox.taken <==> task.phase.Done?)
  }

  /** Every interleaving of the two sides' methods stays in the states `WsState` speaks of. */
  ghost predicate Valid(owner: Owner, task: Task)
    reads owner, task, owner.shared, owner.outbox
  {
    Joined(owner, task) && Inv(View(owner, task))
  }

  /** One connection, as its owner's handle sees it. */
  class Owner {
    const shared: Shared
    const outbox: Outbox
    const wake: bool
    var notified: bool
    var closeSeen: bool

    constructor (shared: Shared, outbox: Outbox, wake: bool)
      ensures this.shared == shared && this.outbox == outbox && this.wake == wake
      ensures !notified && !closeSeen
    {
      this.shared, this.outbox, this.wake, notified, closeSeen := shared, outbox, wake, false, false;
    }

    method BecameReady(ghost task: Task) returns (ready: bool)
      requires Valid(this, task) && outbox.held
      modifies this`notified, shared`log
      ensures Valid(this, task) && ready == Ready(old(View(this, task)))
      ensures View(this, task) == Step(old(View(this, task)), ANotices)
    {
      hide Inv;
      StepKeeps(View(this, task), ANotices);
      if !wake {
        return false;
      }
      if notified || closeSeen {
        return false;
      }
      ready := |shared.inbox| != 0 || shared.state.Closed? || shared.state.Failed?;
      if !ready {
        return;
      }
      notified := true;
      shared.log := shared.log.(marks := shared.log.marks + [Noticed]);
    }

    /** One look of a `recv` call: nothing yet, or the messages and the close. */
    method RecvLook(wait: bool, ghost task: Task) returns (answer: Option<Answer>)
      requires Valid(this, task) && outbox.held
      modifies this, shared
      ensures Valid(this, task) && answer == RecvAnswer(old(View(this, task)), wait)
      ensures View(this, task) == Step(old(View(this, task)), ARecv(wait))
    {
      hide Inv;
      StepKeeps(View(this, task), ARecv(wait));
      notified := false;
      shared.log := shared.log.(marks := shared.log.marks + [Looked]);
      var wasFull := |shared.inbox| >= INBOX_MAX;
      var messages := shared.inbox;
      shared.inbox := [];
      if wasFull {
        shared.permit := true;
      }
      var closed: Option<(nat, string)>;
      match shared.state {
        case Closed(code, reason) => closed := Some((code, reason));
        case Failed(why) => closed := Some((1006, why));
        case _ => closed := None;
      }
      if messages == [] && closed.None? && wait {
        return None;
      }
      if closed.Some? {
        closeSeen := true;
      }
      shared.log := shared.log.(answers := shared.log.answers + [Answer(messages, closed)]);
      return Some(Answer(messages, closed));
    }

    /** One look of a `send` call. */
    method SendLook(message: Message, ghost task: Task) returns (answer: Sending)
      requires Valid(this, task) && outbox.held
      modifies outbox`queue, shared`log
      ensures Valid(this, task) && answer == SendAnswer(old(View(this, task)))
      ensures View(this, task) == Step(old(View(this, task)), ASend(message))
    {
      InvPhase(View(this, task));
      hide Inv;
      StepKeeps(View(this, task), ASend(message));
      if shared.state.Connecting? {
        return Pending;
      }
      if !shared.state.Open? {
        return Refused;
      }
      var ok := outbox.TrySend(Send(message));
      if !ok {
        return Pending;
      }
      shared.log := shared.log.(accepted := shared.log.accepted + [message]);
      return Sent;
    }

    /** The handle is gone; the wish to close goes out if there is room for it. */
    method Close(code: nat, reason: string, ghost task: Task)
      requires Valid(this, task) && outbox.held
      modifies outbox`queue, outbox`held
      ensures Valid(this, task)
      ensures View(this, task) == Step(old(View(this, task)), AClose(code, reason))
    {
      hide Inv;
      StepKeeps(View(this, task), AClose(code, reason));
      var _ := outbox.TrySend(Out.Close(code, reason));
      outbox.held := false;
    }

    /** The handle is dropped. */
    method Release(ghost task: Task)
      requires Valid(this, task) && outbox.held
      modifies outbox`held
      ensures Valid(this, task) && View(this, task) == Step(old(View(this, task)), ADrop)
    {
      hide Inv;
      StepKeeps(View(this, task), ADrop);
      outbox.held := false;
    }
  }

  /** The connection's task. */
  class Task {
    const shared: Shared
    const outbox: Outbox
    var phase: Phase

    constructor (shared: Shared, outbox: Outbox)
      ensures this.shared == shared && this.outbox == outbox && phase == Dialing
    {
      this.shared, this.outbox, phase := shared, outbox, Dialing;
    }

    /** How the dial and the handshake ended. */
    method Opened(status: Result<nat, string>, ghost owner: Owner)
      requires Valid(owner, this) && phase.Dialing?
      modifies this, shared`state, outbox`taken
      ensures Valid(owner, this)
      ensures View(owner, this) == Step(old(View(owner, this)), if status.Ok? then ADialed(status.value) else ADialFailed(status.error))
    {
      hide Inv;
      StepKeeps(View(owner, this), if status.Ok? then ADialed(status.value) else ADialFailed(status.error));
      match status {
        case Ok(n) =>
          shared.state := State.Open(n);
          phase := Top;
        case Err(why) =>
          shared.state := Failed(why);
          outbox.taken := true;
          phase := Done;
      }
    }

    /** The top of the loop: is there room to read? */
    method LookForRoom(ghost owner: Owner)
      requires Valid(owner, this) && phase.Top?
      modifies this
      ensures Valid(owner, this) && View(owner, this) == Step(old(View(owner, this)), ALook)
    {
      hide Inv;
      StepKeeps(View(owner, this), ALook);
      var full := |shared.inbox| >= INBOX_MAX;
      phase := Select(full);
    }

    method OnFrame(frame: Frame, ghost owner: Owner)
      requires Valid(owner, this) && phase == Select(false)
      modifies this, shared
      ensures Valid(owner, this) && View(owner, this) == Step(old(View(owner, this)), AFrame(frame))
    {
      hide Inv;
      StepKeeps(View(owner, this), AFrame(frame));
      match frame {
        case Data(m) =>
          shared.inbox := shared.inbox + [m];
          shared.log := shared.log.(read := shared.log.read + [m], pushed := shared.log.pushed + [m]);
          phase := Top;
        case Control =>
          phase := Top;
        case CloseFrame(Some((code, reason))) =>
          phase := Ending(code, reason);
        case CloseFrame(None) =>
          phase := Ending(1005, "");
        case Broken(why) =>
          phase := Ending(1006, why);
        case End(sentence) =>
          phase := Ending(1006, sentence);
      }
    }

    method OnDrained(ghost owner: Owner)
      requires Valid(owner, this) && phase == Select(true) && shared.permit
      modifies this, shared`permit
      ensures Valid(owner, this) && View(owner, this) == Step(old(View(owner, this)), AWoken)
    {
      hide Inv;
      StepKeeps(View(owner, this), AWoken);
      shared.permit := false;
      phase := Top;
    }

    /** The owner's next wish, or the end of them. */
    method OnOut(failure: Option<string>, ghost owner: Owner)
      requires Valid(owner, this) && phase.Select? && (outbox.queue != [] || !outbox.held)
      modifies this, outbox`queue, shared`log
      ensures Valid(owner, this) && View(owner, this) == Step(old(View(owner, this)), ATakeOut(failure))
    {
      hide Inv;
      StepKeeps(View(owner, this), ATakeOut(failure));
      if outbox.queue == [] {
        shared.log := shared.log.(said := shared.log.said + [1001]);
        phase := Ending(1001, "");
        return;
      }
      var wish := outbox.queue[0];
      outbox.queue := outbox.queue[1..];
      match wish {
        case Send(m) =>
          if failure.Some? {
            phase := Ending(1006, failure.value);
          } else {
            shared.log := shared.log.(wire := shared.log.wire + [m]);
            phase := Top;
          }
        case Close(code, reason) =>
          shared.log := shared.log.(said := shared.log.said + [code]);
          phase := Ending(code, reason);
      }
    }

    method OnSilence(sentence: string, ghost owner: Owner)
      requires Valid(owner, this) && phase.Select?
      modifies this, shared`log
      ensures Valid(owner, this) && View(owner, this) == Step(old(View(owner, this)), ASilent(sentence))
    {
      hide Inv;
      StepKeeps(View(owner, this), ASilent(sentence));
      shared.log := shared.log.(said := shared.log.said + [1001]);
      phase := Ending(1006, sentence);
    }

    /** A frame read while the far end's close is awaited: it is dropped. */
    method OnLateFrame(frame: Frame, ghost owner: Owner)
      requires Valid(owner, this) && phase.Ending? && shared.log.said != []
      modifies shared`log
      ensures Valid(owner, this) && View(owner, this) == Step(old(View(owner, this)), APass(frame))
    {
      hide Inv;
      StepKeeps(View(owner, this), APass(frame));
      if frame.Data? {
        shared.log := shared.log.(read := shared.log.read + [frame.message]);
      }
    }

    /** The loop is left: how it ended is set, and nothing more is listened for. */
    method Finish(ghost owner: Owner)
      requires Valid(owner, this) && phase.Ending?
      modifies this, shared`state, outbox`taken
      ensures Valid(owner, this) && View(owner, this) == Step(old(View(owner, this)), ASetClosed)
    {
      hide Inv;
      StepKeeps(View(owner, this), ASetClosed);
      shared.state := State.Closed(phase.code, phase.reason);
      outbox.taken := true;
      phase := Done;
    }
  }

  method Connect(wake: bool) returns (owner: Owner, task: Task)
    ensures fresh(owner) && fresh(task) && Valid(owner, task) && View(owner, task) == Begun(wake)
  {
    hide Inv;
    BegunKeeps(wake);
    var shared := new Shared();
    var outbox := new Outbox();
    owner := new Owner(shared, outbox, wake);
    task := new Task(shared, outbox);
  }
}
