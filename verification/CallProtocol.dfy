/**
 The correlated call protocol of the generated WebSocket runtime, as a
 transition system. One step is one lock region or one channel operation, so
 every interleaving of callers, receivers, closers and the reader is a run.

 Thread 0 is the read loop; every other thread may call, receive or close, any
 number of times. History fields (`arrived`, `queued`, `taken`, `closings`, and
 each channel's `log`) record what happened; no step reads them.
 */
module CallProtocol {

  import opened Wrappers
  import opened PendingTable

  /** A decoded inbound frame; `serial` is its position in the arrival order. */
  datatype Frame = Frame(serial: nat, id: Option<Id>, variant: string)

  datatype Event = Sent(frame: Frame) | Closed

  /** A reply channel of capacity one, with the id and variant tag it was made for. */
  datatype Chan = Chan(id: Id, sent: string, buf: seq<Frame>, closed: bool, log: seq<Event>)

  datatype Outcome =
    | Refused(cause: Cause)
    | Reply(id: Id, frame: Frame)
    | ConnClosed(cause: Cause)
    | SendError
    | CtxError
    | Received(frame: Frame)
    | InboxEnded
    | CloseReturned

  datatype Pc =
    | Idle
    | Done(out: Outcome)
      // Call
    | Sending(id: Id, ch: nat)
    | Awaiting(id: Id, ch: nat)
    | SawClosed
    | Cancelling(id: Id, ch: nat, why: Outcome)
      // Receive
    | RecvChecking
    | RecvBlocked
    | RecvNotifying(out: Outcome)
      // closeAll
    | CloseEntering(cause: Cause)
    | Closing(cause: Cause, rest: map<Id, Waiter<nat>>)
      // readLoop
    | Reading
    | Routing(frame: Frame)
    | Handing(frame: Frame, ch: nat)
    | Queueing(frame: Frame)
    | Notifying
    | Finishing(cause: Cause)
    | LastNotify
    | Stopped

  /** What the threads share. */
  datatype World = World(
    table: Table<nat>,
    chans: seq<Chan>,
    inbox: seq<Frame>,
    inboxDone: bool,
    token: bool,
    panicked: bool,
    arrived: seq<Frame>,
    queued: seq<Frame>,
    taken: seq<Frame>,
    closings: seq<Cause>)

  datatype State = State(w: World, threads: seq<Pc>)

  predicate AtRest(pc: Pc) {
    pc.Idle? || pc.Done?
  }

  const EMPTY_WORLD := World(EmptyTable(), [], [], false, false, false, [], [], [], [])

  ghost predicate Init(s: State) {
    && s.w == EMPTY_WORLD
    && |s.threads| > 0 && s.threads[0] == Reading
    && (forall t :: 0 < t < |s.threads| ==> s.threads[t] == Idle)
  }

  datatype Step =
    | CallRegister(t: nat, id: Id, sent: string)
    | FrameWritten(t: nat)
    | FrameFailed(t: nat)
    | TakeReply(t: nat)
    | SeeClosed(t: nat)
    | ReadClosedErr(t: nat)
    | CallCtxDone(t: nat)
    | CancelWaiter(t: nat)
    | StartReceive(t: nat)
    | CheckInbox(t: nat)
    | Wake(t: nat)
    | ReceiveCtxDone(t: nat)
    | NotifyAndReturn(t: nat)
    | StartClose(t: nat, cause: Cause)
    | CloseLocked(t: nat)
    | CloseOne(t: nat, id: Id)
    | CloseEnd(t: nat)
    | FrameArrives(frameId: Option<Id>, variant: string)
    | ReadFails(cause: Cause)
    | RouteLocked
    | HandOver
    | Enqueue
    | NotifyInbox
    | FinishInbox
    | NotifyLast

  /** The thread that takes a step. */
  function Actor(step: Step): nat {
    match step
    case FrameArrives(_, _) => 0
    case ReadFails(_) => 0
    case RouteLocked => 0
    case HandOver => 0
    case Enqueue => 0
    case NotifyInbox => 0
    case FinishInbox => 0
    case NotifyLast => 0
    case _ => step.t
  }

  /** When a thread at `pc` can take `step`: it is at the matching program point
      and a blocking channel operation is ready. */
  predicate Ready(w: World, pc: Pc, step: Step) {
    match step
    case CallRegister(t, _, _) => t != 0 && AtRest(pc)
    case FrameWritten(_) => pc.Sending?
    case FrameFailed(_) => pc.Sending?
    case TakeReply(_) => pc.Awaiting? && pc.ch < |w.chans| && w.chans[pc.ch].buf != []
    case SeeClosed(_) => pc.Awaiting? && pc.ch < |w.chans| && w.chans[pc.ch].buf == [] && w.chans[pc.ch].closed
    case ReadClosedErr(_) => pc.SawClosed? && w.table.err.Some?
    case CallCtxDone(_) => pc.Awaiting?
    case CancelWaiter(_) => pc.Cancelling?
    case StartReceive(t) => t != 0 && AtRest(pc)
    case CheckInbox(_) => pc.RecvChecking?
    case Wake(_) => pc.RecvBlocked? && w.token
    case ReceiveCtxDone(_) => pc.RecvBlocked?
    case NotifyAndReturn(_) => pc.RecvNotifying?
    case StartClose(t, _) => t != 0 && AtRest(pc)
    case CloseLocked(_) => pc.CloseEntering?
    case CloseOne(_, id) => pc.Closing? && id in pc.rest && pc.rest[id].ch < |w.chans|
    case CloseEnd(_) => pc.Closing? && pc.rest == map[]
    case FrameArrives(_, _) => pc.Reading?
    case ReadFails(_) => pc.Reading?
    case RouteLocked => pc.Routing?
    case HandOver => pc.Handing? && pc.ch < |w.chans| && (w.chans[pc.ch].closed || |w.chans[pc.ch].buf| < 1)
    case Enqueue => pc.Queueing?
    case NotifyInbox => pc.Notifying?
    case FinishInbox => pc.Finishing?
    case NotifyLast => pc.LastNotify?
  }

  predicate Enabled(s: State, step: Step) {
    Actor(step) < |s.threads| && Ready(s.w, s.threads[Actor(step)], step)
  }

  /** The effect of a step: the shared state after it, and where its thread goes. */
  datatype Move = Move(w: World, pc: Pc)

  /** The lock region of `register`: fails once closed, else makes a channel. */
  function Register(w: World, id: Id, sent: string): Move {
    match w.table.err
    case Some(cause) => Move(w, Done(Refused(cause)))
    case None =>
      var ch := |w.chans|;
      Move(w.(table := Add(w.table, id, Waiter(ch, sent)), chans := w.chans + [Chan(id, sent, [], false, [])]), Sending(id, ch))
  }

  /** The lock region of `Receive`: pop a frame, see the end, or go to sleep. */
  function CheckRegion(w: World): Move {
    if |w.inbox| > 0 then
      var frame := w.inbox[0];
      var inbox := w.inbox[1..];
      var more := |inbox| > 0 || w.inboxDone;
      Move(w.(inbox := inbox, taken := w.taken + [frame]), if more then RecvNotifying(Received(frame)) else Done(Received(frame)))
    else
      Move(w, if w.inboxDone then RecvNotifying(InboxEnded) else RecvBlocked)
  }

  /** Where closeAll's caller goes on: the read loop to finishInbox, others return. */
  function AfterClose(reader: bool, cause: Cause): Pc {
    if reader then Finishing(cause) else Done(CloseReturned)
  }

  /** The lock region of `closeAll`: only the first one takes the waiters. */
  function CloseRegion(w: World, reader: bool, cause: Cause): Move {
    var w' := w.(closings := w.closings + [cause]);
    if w.table.err.Some? then Move(w', AfterClose(reader, cause))
    else Move(w'.(table := Shut(w.table, cause)), Closing(cause, w.table.waiters))
  }

  /** Closing a channel; closing it twice panics. */
  function CloseChan(w: World, ch: nat): World
    requires ch < |w.chans|
  {
    var c := w.chans[ch];
    if c.closed then w.(panicked := true)
    else w.(chans := w.chans[ch := c.(closed := true, log := c.log + [Closed])])
  }

  /** Sending on a channel; sending on a closed one panics. */
  function SendChan(w: World, ch: nat, frame: Frame): World
    requires ch < |w.chans|
  {
    var c := w.chans[ch];
    if c.closed then w.(panicked := true)
    else w.(chans := w.chans[ch := c.(buf := c.buf + [frame], log := c.log + [Sent(frame)])])
  }

  /** The lock region of `resolve`, for a frame the read loop holds. */
  function RouteRegion(w: World, frame: Frame): Move {
    if frame.id.Some? && CanResolve(w.table, frame.id.value, frame.variant) then
      var id := frame.id.value;
      Move(w.(table := Drop(w.table, id)), Handing(frame, w.table.waiters[id].ch))
    else
      Move(w, Queueing(frame))
  }

  function Act(w: World, pc: Pc, step: Step): Move
    requires Ready(w, pc, step)
  {
    match step
    case CallRegister(_, id, sent) => Register(w, id, sent)
    case FrameWritten(_) => Move(w, Awaiting(pc.id, pc.ch))
    case FrameFailed(_) => Move(w, Cancelling(pc.id, pc.ch, SendError))
    case TakeReply(_) =>
      var c := w.chans[pc.ch];
      Move(w.(chans := w.chans[pc.ch := c.(buf := c.buf[1..])]), Done(Reply(pc.id, c.buf[0])))
    case SeeClosed(_) => Move(w, SawClosed)
    case ReadClosedErr(_) => Move(w, Done(ConnClosed(w.table.err.value)))
    case CallCtxDone(_) => Move(w, Cancelling(pc.id, pc.ch, CtxError))
    case CancelWaiter(_) => Move(w.(table := Drop(w.table, pc.id)), Done(pc.why))
    case StartReceive(_) => Move(w, RecvChecking)
    case CheckInbox(_) => CheckRegion(w)
    case Wake(_) => Move(w.(token := false), RecvChecking)
    case ReceiveCtxDone(_) => Move(w, Done(CtxError))
    case NotifyAndReturn(_) => Move(w.(token := true), Done(pc.out))
    case StartClose(_, cause) => Move(w, CloseEntering(cause))
    case CloseLocked(t) => CloseRegion(w, t == 0, pc.cause)
    case CloseOne(_, id) => Move(CloseChan(w, pc.rest[id].ch), Closing(pc.cause, pc.rest - {id}))
    case CloseEnd(t) => Move(w, AfterClose(t == 0, pc.cause))
    case FrameArrives(id, variant) =>
      var frame := Frame(|w.arrived|, id, variant);
      Move(w.(arrived := w.arrived + [frame]), Routing(frame))
    case ReadFails(cause) => Move(w, CloseEntering(cause))
    case RouteLocked => RouteRegion(w, pc.frame)
    case HandOver => Move(SendChan(w, pc.ch, pc.frame), Reading)
    case Enqueue => Move(w.(inbox := w.inbox + [pc.frame], queued := w.queued + [pc.frame]), Notifying)
    case NotifyInbox => Move(w.(token := true), Reading)
    case FinishInbox => Move(w.(inboxDone := true), LastNotify)
    case NotifyLast => Move(w.(token := true), Stopped)
  }

  function Moves(s: State, step: Step): Move
    requires Enabled(s, step)
  {
    Act(s.w, s.threads[Actor(step)], step)
  }

  /** A step changes the shared state and moves its own thread. */
  function Apply(s: State, step: Step): State
    requires Enabled(s, step)
  {
    var m := Moves(s, step);
    State(m.w, s.threads[Actor(step) := m.pc])
  }

  /** A run: each step enabled where it is taken. */
  ghost predicate Runs(s: State, steps: seq<Step>, s': State)
    decreases |steps|
  {
    if steps == [] then s' == s
    else Enabled(s, steps[0]) && Runs(Apply(s, steps[0]), steps[1..], s')
  }
}
