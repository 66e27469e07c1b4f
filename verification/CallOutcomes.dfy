/**
 What an operation returns. Receivers are given the inbox in order and nothing else;
 every outcome has the cause it names; and once the connection is lost and the
 runtime's own steps have run out, nobody waits any more.
 */
module CallOutcomes {

  import opened Wrappers
  import opened PendingTable
  import opened CallProtocol
  import opened CallSafety
  import opened CallRouting
  import opened CallLiveness
  import opened CallProgress

  // ---- receivers ----------------------------------------------------------

  /** The outcome a thread has, or is on its way out with. */
  function OutcomeOf(pc: Pc): Option<Outcome> {
    match pc
    case Done(out) => Some(out)
    case RecvNotifying(out) => Some(out)
    case Cancelling(_, _, why) => Some(why)
    case _ => None
  }

  function FrameOf(pc: Pc): seq<Frame> {
    match OutcomeOf(pc)
    case Some(Received(f)) => [f]
    case _ => []
  }

  /** The frame a step gives its thread to return from Receive. */
  function Given(s: State, step: Step): seq<Frame>
    requires Enabled(s, step)
  {
    if FrameOf(s.threads[Actor(step)]) == [] then FrameOf(Moves(s, step).pc) else []
  }

  /** All frames receivers are given in a run, in the order they are given. */
  ghost function AllGiven(s: State, steps: seq<Step>): seq<Frame>
    decreases |steps|
  {
    if steps == [] || !Enabled(s, steps[0]) then [] else Given(s, steps[0]) + AllGiven(Apply(s, steps[0]), steps[1..])
  }

  /** What is given is taken off the front of the inbox. */
  lemma GivenIsTaken(s: State, step: Step)
    requires Enabled(s, step)
    ensures Apply(s, step).w.taken == s.w.taken + Given(s, step)
    ensures Given(s, step) != [] ==> s.w.inbox == Given(s, step) + Apply(s, step).w.inbox
  {
    if !step.CheckInbox? {
      GivesNothing(s, step);
    }
  }

  lemma GivesNothing(s: State, step: Step)
    requires Enabled(s, step) && !step.CheckInbox?
    ensures Given(s, step) == [] && Apply(s, step).w.taken == s.w.taken
  {
  }

  /** A receiver that has its frame returns this frame. */
  lemma GivenIsReturned(s: State, step: Step)
    requires Enabled(s, step) && FrameOf(s.threads[Actor(step)]) != []
    ensures
      var pc, pc' := s.threads[Actor(step)], Moves(s, step).pc;
      FrameOf(pc') == if AtRest(pc) then [] else FrameOf(pc)
    ensures !AtRest(s.threads[Actor(step)]) ==> Moves(s, step).pc.Done?
  {
  }

  lemma {:induction false} RunGiven(s: State, steps: seq<Step>, s': State)
    requires Runs(s, steps, s')
    ensures s'.w.taken == s.w.taken + AllGiven(s, steps)
    decreases |steps|
  {
    if steps != [] {
      GivenIsTaken(s, steps[0]);
      RunGiven(Apply(s, steps[0]), steps[1..], s');
    }
  }

  /** In every run: what receivers have been given, in this order, and then what is
      still in the inbox, are the frames the read loop appended, in arrival order and
      each once. */
  lemma ReceiversGetTheInbox(s0: State, steps: seq<Step>, s: State)
    requires Init(s0) && Runs(s0, steps, s)
    ensures s.w.queued == AllGiven(s0, steps) + s.w.inbox && Increasing(s.w.queued)
  {
    InboxHistory(s0, steps, s);
    RunGiven(s0, steps, s);
    assert s.w.taken == AllGiven(s0, steps);
  }

  lemma InboxHistory(s0: State, steps: seq<Step>, s: State)
    requires Init(s0) && Runs(s0, steps, s)
    ensures s0.w.taken == [] && s.w.queued == s.w.taken + s.w.inbox && Increasing(s.w.queued)
  {
    InitInv(s0);
    InitRouting(s0);
    RunRouting(s0, steps, s);
  }

  // ---- every outcome has its cause ----------------------------------------

  /** What has to be the case for `step` to give its thread the outcome `out`. */
  predicate Earned(s: State, step: Step, out: Outcome)
    requires Enabled(s, step)
  {
    var pc := s.threads[Actor(step)];
    match out
    case Refused(cause) => step.CallRegister? && s.w.table.err == Some(cause)
    case Reply(id, f) => pc.Awaiting? && pc.id == id && DeliveredTo(s.w.chans, f, pc.ch)
    case ConnClosed(cause) => pc.SawClosed? && s.w.table.err == Some(cause)
    case SendError => step.FrameFailed?
    case CtxError => step.CallCtxDone? || step.ReceiveCtxDone?
    case Received(f) => step.CheckInbox? && s.w.inbox != [] && s.w.inbox[0] == f
    case InboxEnded => step.CheckInbox? && s.w.inbox == [] && s.w.inboxDone
    case CloseReturned => pc.CloseEntering? || (pc.Closing? && pc.rest == map[])
  }

  /** A thread's outcome is the one it was on its way out with, or is earned. */
  lemma OutcomeIsEarned(s: State, step: Step)
    requires Inv(s) && Enabled(s, step) && OutcomeOf(Moves(s, step).pc).Some?
    ensures
      var pc, out := s.threads[Actor(step)], OutcomeOf(Moves(s, step).pc);
      (OutcomeOf(pc) == out && !AtRest(pc)) || Earned(s, step, out.value)
  {
    var pc := s.threads[Actor(step)];
    assert PcOk(s.w.table, s.w.chans, pc);
    if pc.Awaiting? {
      assert ChanOk(s.w.chans[pc.ch]);
    }
  }

  /** A closer returns to its caller; the read loop goes on to end the inbox. */
  lemma ReaderIsReader(s: State, step: Step)
    requires Enabled(s, step) && Actor(step) == 0 && InLoop(s.threads[0])
    ensures InLoop(Moves(s, step).pc)
  {
  }

  // ---- after the connection is lost ---------------------------------------

  predicate InLoop(pc: Pc) {
    ReaderPc(pc) || pc.CloseEntering? || pc.Closing?
  }

  /** The read loop is past closeAll. */
  predicate PastClose(pc: Pc) {
    pc.Finishing? || pc.LastNotify? || pc.Stopped?
  }

  /** The read loop ends the inbox, after the table has been closed. */
  ghost predicate EndInv(s: State) {
    && |s.threads| > 0 && InLoop(s.threads[0])
    && (PastClose(s.threads[0]) ==> s.w.table.err.Some?)
    && (s.w.inboxDone <==> s.threads[0].LastNotify? || s.threads[0].Stopped?)
  }

  lemma StepEnd(s: State, step: Step)
    requires Inv(s) && EndInv(s) && Enabled(s, step)
    ensures EndInv(Apply(s, step))
  {
    assert PcOk(s.w.table, s.w.chans, s.threads[0]);
    if Actor(step) == 0 {
      ReaderIsReader(s, step);
      ReaderEnds(s, step);
    } else {
      OthersEndNothing(s, step);
    }
  }

  lemma OthersEndNothing(s: State, step: Step)
    requires Enabled(s, step) && Actor(step) != 0
    ensures Apply(s, step).w.inboxDone == s.w.inboxDone && (s.w.table.err.Some? ==> Apply(s, step).w.table.err.Some?)
  {
  }

  lemma ReaderEnds(s: State, step: Step)
    requires Inv(s) && EndInv(s) && Enabled(s, step) && Actor(step) == 0
    ensures
      var m := Moves(s, step);
      && (PastClose(m.pc) ==> m.w.table.err.Some?)
      && (m.w.inboxDone <==> m.pc.LastNotify? || m.pc.Stopped?)
  {
    assert PcOk(s.w.table, s.w.chans, s.threads[0]);
  }

  lemma {:induction false} RunEnd(s: State, steps: seq<Step>, s': State)
    requires Inv(s) && EndInv(s) && DisciplinedRuns(s, steps, s')
    ensures EndInv(s')
    decreases |steps|
  {
    if steps != [] {
      StepInv(s, steps[0]);
      StepEnd(s, steps[0]);
      RunEnd(Apply(s, steps[0]), steps[1..], s');
    }
  }

  /** Once the read loop has left its read, for whatever cause, and the runtime's own
      steps have run out: the read loop has stopped, the inbox is ended and the table
      closed, no call awaits a reply and no receiver sleeps. */
  lemma NobodyWaitsAfterTheEnd(s0: State, steps: seq<Step>, s: State)
    requires Init(s0) && DisciplinedRuns(s0, steps, s) && Quiescent(s)
    ensures |s.threads| > 0 && (s.threads[0].Reading? || s.threads[0].Stopped?)
    ensures s.threads[0].Stopped? ==> s.w.inboxDone && s.w.table.err.Some?
    ensures s.threads[0].Stopped? ==> forall t :: 0 < t < |s.threads| ==> AtRest(s.threads[t]) || s.threads[t].Sending?
  {
    InitInv(s0);
    RunEnd(s0, steps, s);
    NobodyStuck(s0, steps, s);
    assert Served(s.w, s.threads[0]);
    DisciplinedRunProgress(s0, steps, s);
    forall t | 0 < t < |s.threads| && s.threads[0].Stopped?
      ensures AtRest(s.threads[t]) || s.threads[t].Sending?
    {
      assert Served(s.w, s.threads[t]) && !ReaderPc(s.threads[t]);
    }
  }

  // ---- what comes in ------------------------------------------------------

  /** The frames the network brings in a run: id and variant, in order. */
  function Arrivals(steps: seq<Step>): seq<(Option<Id>, string)> {
    if steps == [] then []
    else (if steps[0].FrameArrives? then [(steps[0].frameId, steps[0].variant)] else []) + Arrivals(steps[1..])
  }

  function Contents(frames: seq<Frame>): seq<(Option<Id>, string)> {
    seq(|frames|, i requires 0 <= i < |frames| => (frames[i].id, frames[i].variant))
  }

  /** The read loop takes them all up, as they are and in order. */
  lemma {:induction false} ArrivedAsSent(s: State, steps: seq<Step>, s': State)
    requires Runs(s, steps, s')
    ensures Contents(s'.w.arrived) == Contents(s.w.arrived) + Arrivals(steps)
    decreases |steps|
  {
    if steps != [] {
      StepArrives(s, steps[0]);
      ArrivedAsSent(Apply(s, steps[0]), steps[1..], s');
    }
  }

  lemma StepArrives(s: State, step: Step)
    requires Enabled(s, step)
    ensures Contents(Apply(s, step).w.arrived)
         == Contents(s.w.arrived) + if step.FrameArrives? then [(step.frameId, step.variant)] else []
  {
    if step.FrameArrives? {
      var frame := Frame(|s.w.arrived|, step.frameId, step.variant);
      assert Contents(s.w.arrived + [frame]) == Contents(s.w.arrived) + Contents([frame]);
    } else {
      assert Apply(s, step).w.arrived == s.w.arrived;
    }
  }

  /** Why the connection is closed: what a user passed, or what ended the read loop. */
  function Causes(steps: seq<Step>): set<Cause> {
    set step | step in steps && (step.StartClose? || step.ReadFails?) :: step.cause
  }

  predicate CauseIn(pc: Pc, causes: set<Cause>) {
    pc.CloseEntering? || pc.Closing? || pc.Finishing? ==> pc.cause in causes
  }

  ghost predicate CausesIn(s: State, causes: set<Cause>) {
    (forall c <- s.w.closings :: c in causes) && forall t :: 0 <= t < |s.threads| ==> CauseIn(s.threads[t], causes)
  }

  lemma StepCauses(s: State, step: Step, causes: set<Cause>)
    requires CausesIn(s, causes) && Enabled(s, step)
    requires step.StartClose? || step.ReadFails? ==> step.cause in causes
    ensures CausesIn(Apply(s, step), causes)
  {
    CauseMove(s.w, s.threads[Actor(step)], step, causes);
  }

  lemma CauseMove(w: World, pc: Pc, step: Step, causes: set<Cause>)
    requires Ready(w, pc, step) && CauseIn(pc, causes) && forall c <- w.closings :: c in causes
    requires step.StartClose? || step.ReadFails? ==> step.cause in causes
    ensures CauseIn(Act(w, pc, step).pc, causes) && forall c <- Act(w, pc, step).w.closings :: c in causes
  {
  }

  lemma {:induction false} RunCauses(s: State, steps: seq<Step>, s': State, causes: set<Cause>)
    requires CausesIn(s, causes) && Runs(s, steps, s') && Causes(steps) <= causes
    ensures CausesIn(s', causes)
    decreases |steps|
  {
    if steps != [] {
      assert steps[0] in steps && Causes(steps[1..]) <= Causes(steps);
      StepCauses(s, steps[0], causes);
      RunCauses(Apply(s, steps[0]), steps[1..], s', causes);
    }
  }

  /** What callers are told after a close is a cause that somebody gave in the run. */
  lemma ToldARealCause(s0: State, steps: seq<Step>, s: State)
    requires Init(s0) && Runs(s0, steps, s) && s.w.table.err.Some?
    ensures s.w.table.err.value in Causes(steps)
  {
    InitInv(s0);
    RunInv(s0, steps, s);
    RunCauses(s0, steps, s, Causes(steps));
  }

  // ---- the signal ---------------------------------------------------------

  /** A receiver passes the wakeup on iff there is something left to receive. */
  lemma PassesSignalOn(s: State, t: nat)
    requires Enabled(s, CheckInbox(t))
    ensures Moves(s, CheckInbox(t)).pc.RecvNotifying? <==> Receivable(Apply(s, CheckInbox(t)).w)
  {
  }
}
