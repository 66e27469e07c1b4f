/**
 Progress of the call protocol. The runtime's own steps - everything but a user
 starting an operation, a context ending, and the network - strictly lower a
 rank, so they always run out; and where they have run out, every receiver still
 blocked faces an empty open inbox and every call still waiting is registered in
 an open table.
 */
module CallProgress {

  import opened PendingTable
  import opened CallProtocol
  import opened CallSafety
  import opened CallLiveness

  /** Steps taken by users, contexts and the network rather than by the runtime. */
  predicate External(step: Step) {
    || step.CallRegister? || step.StartReceive? || step.StartClose? || step.CallCtxDone? || step.ReceiveCtxDone?
    || step.FrameWritten? || step.FrameFailed? || step.FrameArrives? || step.ReadFails?
  }

  function PcRank(pc: Pc): nat {
    match pc
    case Sending(_, _) => 3
    case Awaiting(_, _) => 2
    case SawClosed => 1
    case Cancelling(_, _, _) => 1
    case RecvChecking => 11
    case RecvBlocked => 10
    case RecvNotifying(_) => 3
    case CloseEntering(_) => 20
    case Closing(_, rest) => 12 + |rest|
    case Routing(_) => 6
    case Handing(_, _) => 1
    case Queueing(_) => 5
    case Notifying => 3
    case Finishing(_) => 4
    case LastNotify => 3
    case _ => 0
  }

  function WorldRank(w: World): nat {
    |w.table.waiters| + if w.token then 2 else 0
  }

  function ThreadsRank(threads: seq<Pc>): nat {
    if threads == [] then 0 else PcRank(threads[0]) + ThreadsRank(threads[1..])
  }

  function Rank(s: State): nat {
    WorldRank(s.w) + ThreadsRank(s.threads)
  }

  lemma {:induction false} ThreadsRankUpdate(threads: seq<Pc>, t: nat, pc: Pc)
    requires t < |threads|
    ensures ThreadsRank(threads[t := pc]) == ThreadsRank(threads) - PcRank(threads[t]) + PcRank(pc)
    decreases |threads|
  {
    if t == 0 {
      assert threads[t := pc][1..] == threads[1..];
    } else {
      assert threads[t := pc][1..] == threads[1..][t - 1 := pc];
      ThreadsRankUpdate(threads[1..], t - 1, pc);
    }
  }

  lemma RemoveKey<V>(m: map<Id, V>, id: Id)
    ensures |m - {id}| == |m| - if id in m then 1 else 0
  {
    assert (m - {id}).Keys == m.Keys - {id};
  }

  lemma RankCloseOne(w: World, pc: Pc, step: Step)
    requires Ready(w, pc, step) && step.CloseOne?
    ensures var m := Act(w, pc, step); WorldRank(m.w) + PcRank(m.pc) < WorldRank(w) + PcRank(pc)
  {
    RemoveKey(pc.rest, step.id);
    assert CloseChan(w, pc.rest[step.id].ch).table == w.table;
  }

  lemma RankCancel(w: World, pc: Pc, step: Step)
    requires Ready(w, pc, step) && step.CancelWaiter?
    ensures var m := Act(w, pc, step); WorldRank(m.w) + PcRank(m.pc) < WorldRank(w) + PcRank(pc)
  {
    RemoveKey(w.table.waiters, pc.id);
  }

  lemma RankRoute(w: World, pc: Pc, step: Step)
    requires Ready(w, pc, step) && step.RouteLocked?
    ensures var m := Act(w, pc, step); WorldRank(m.w) + PcRank(m.pc) < WorldRank(w) + PcRank(pc)
  {
    if pc.frame.id.Some? {
      RemoveKey(w.table.waiters, pc.frame.id.value);
    }
  }

  lemma RankClose(w: World, pc: Pc, step: Step)
    requires Ready(w, pc, step) && step.CloseLocked?
    ensures var m := Act(w, pc, step); WorldRank(m.w) + PcRank(m.pc) < WorldRank(w) + PcRank(pc)
  {
  }

  lemma RankMove(w: World, pc: Pc, step: Step)
    requires Ready(w, pc, step) && !External(step)
    ensures
      var m := Act(w, pc, step);
      WorldRank(m.w) + PcRank(m.pc) < WorldRank(w) + PcRank(pc)
  {
    if step.CloseOne? {
      RankCloseOne(w, pc, step);
    } else if step.CancelWaiter? {
      RankCancel(w, pc, step);
    } else if step.RouteLocked? {
      RankRoute(w, pc, step);
    } else if step.CloseLocked? {
      RankClose(w, pc, step);
    } else {
      assert Act(w, pc, step).w.table == w.table;
    }
  }

  lemma StepLowersRank(s: State, step: Step)
    requires Enabled(s, step) && !External(step)
    ensures Rank(Apply(s, step)) < Rank(s)
  {
    var t := Actor(step);
    RankMove(s.w, s.threads[t], step);
    ThreadsRankUpdate(s.threads, t, Moves(s, step).pc);
  }

  /** The runtime never spins: between two external steps it takes at most
      `Rank(s)` steps, whatever the scheduler does. */
  lemma {:induction false} OwnStepsRunOut(s: State, steps: seq<Step>, s': State)
    requires Runs(s, steps, s') && forall step <- steps :: !External(step)
    ensures |steps| <= Rank(s)
    decreases |steps|
  {
    if steps != [] {
      StepLowersRank(s, steps[0]);
      OwnStepsRunOut(Apply(s, steps[0]), steps[1..], s');
    }
  }

  // ---- every call has a channel of its own --------------------------------

  /** A value sent on the channel is still in it. */
  predicate Undrained(c: Chan) {
    c.log == [] || c.closed || c.buf != []
  }

  ghost predicate OwnChannels(s: State) {
    && (forall t :: 0 <= t < |s.threads| && InFlight(s.threads[t]) ==> s.threads[t].ch < |s.w.chans|)
    && (forall t :: 0 <= t < |s.threads| && InCall(s.threads[t]) ==> Undrained(s.w.chans[s.threads[t].ch]))
    && (forall t, u :: 0 <= t < u < |s.threads| && InFlight(s.threads[t]) && InFlight(s.threads[u]) ==> s.threads[t].ch != s.threads[u].ch)
  }

  lemma DrainMove(w: World, pc: Pc, step: Step, ch: nat)
    requires Ready(w, pc, step) && ch < |w.chans| && Undrained(w.chans[ch]) && !(step.TakeReply? && pc.ch == ch)
    ensures
      var m := Act(w, pc, step);
      ch < |m.w.chans| && Undrained(m.w.chans[ch])
  {
  }

  lemma GrowMove(w: World, pc: Pc, step: Step)
    requires Ready(w, pc, step)
    ensures
      var m := Act(w, pc, step);
      && |w.chans| <= |m.w.chans|
      && (step.CallRegister? && InFlight(m.pc) ==> |w.chans| < |m.w.chans| && Undrained(m.w.chans[|w.chans|]))
  {
  }

  lemma StepOwnChannels(s: State, step: Step)
    requires OwnChannels(s) && Enabled(s, step)
    ensures OwnChannels(Apply(s, step))
  {
    var a := Actor(step);
    var s' := Apply(s, step);
    FlightMove(s.w, s.threads[a], step);
    GrowMove(s.w, s.threads[a], step);
    forall t | 0 <= t < |s.threads| && InCall(s'.threads[t]) ensures Undrained(s'.w.chans[s'.threads[t].ch]) {
      if !(t == a && step.CallRegister?) {
        DrainMove(s.w, s.threads[a], step, s.threads[t].ch);
      }
    }
  }

  ghost predicate ProgressInv(s: State) {
    Inv(s) && WakeInv(s) && DistinctIds(s) && AllAnswered(s) && OwnChannels(s)
  }

  lemma {:induction false} DisciplinedRunProgress(s: State, steps: seq<Step>, s': State)
    requires ProgressInv(s) && DisciplinedRuns(s, steps, s')
    ensures ProgressInv(s')
    decreases |steps|
  {
    if steps != [] {
      StepInv(s, steps[0]);
      StepWake(s, steps[0]);
      StepAnswers(s, steps[0]);
      StepOwnChannels(s, steps[0]);
      DisciplinedRunProgress(Apply(s, steps[0]), steps[1..], s');
    }
  }

  // ---- nobody is stuck ----------------------------------------------------

  ghost predicate Quiescent(s: State) {
    forall step :: Enabled(s, step) ==> External(step)
  }

  /** A thread that the runtime has nothing left to do for. */
  predicate Served(w: World, pc: Pc) {
    match pc
    case Idle => true
    case Done(_) => true
    case Sending(_, _) => true
    case Reading => true
    case Stopped => true
    case RecvBlocked => !Receivable(w)
    case Awaiting(id, ch) => Registered(w, id, ch) && w.table.err.None?
    case _ => false
  }

  /** A step of the runtime's own for a thread at `pc` that is not served. */
  lemma OwnMove(w: World, pc: Pc, t: nat) returns (step: Step)
    requires PcOk(w.table, w.chans, pc) && !Served(w, pc) && (ReaderPc(pc) ==> t == 0)
    requires pc.RecvBlocked? ==> w.token
    requires pc.Awaiting? || pc.Handing? ==> ChanOk(w.chans[pc.ch])
    requires pc.Awaiting? ==> w.chans[pc.ch].log != [] && Undrained(w.chans[pc.ch])
    ensures Actor(step) == t && Ready(w, pc, step) && !External(step)
  {
    match pc
    case Awaiting(_, ch) => step := if w.chans[ch].buf != [] then TakeReply(t) else SeeClosed(t);
    case SawClosed => step := ReadClosedErr(t);
    case Cancelling(_, _, _) => step := CancelWaiter(t);
    case RecvChecking => step := CheckInbox(t);
    case RecvBlocked => step := Wake(t);
    case RecvNotifying(_) => step := NotifyAndReturn(t);
    case CloseEntering(_) => step := CloseLocked(t);
    case Closing(_, rest) =>
      if rest == map[] {
        step := CloseEnd(t);
      } else {
        var id :| id in rest;
        step := CloseOne(t, id);
      }
    case Routing(_) => step := RouteLocked;
    case Handing(_, _) => step := HandOver;
    case Queueing(_) => step := Enqueue;
    case Notifying => step := NotifyInbox;
    case Finishing(_) => step := FinishInbox;
    case LastNotify => step := NotifyLast;
  }

  lemma QuietThreads(s: State, t: nat)
    requires ProgressInv(s) && Quiescent(s) && t < |s.threads|
    ensures
      var pc := s.threads[t];
      Served(s.w, pc) || (pc.RecvBlocked? && !s.w.token) || (pc.Awaiting? && !HasEvent(s.w, pc.ch))
  {
    var pc := s.threads[t];
    assert PcOk(s.w.table, s.w.chans, pc);
    if !(Served(s.w, pc) || (pc.RecvBlocked? && !s.w.token) || (pc.Awaiting? && !HasEvent(s.w, pc.ch))) {
      var step := OwnMove(s.w, pc, t);
      assert Enabled(s, step);
    }
  }

  lemma ThreadServed(s: State, t: nat)
    requires ProgressInv(s) && Quiescent(s) && t < |s.threads|
    ensures Served(s.w, s.threads[t])
  {
    var pc := s.threads[t];
    QuietThreads(s, t);
    if pc.RecvBlocked? && Receivable(s.w) {
      if !s.w.token {
        var u :| 0 <= u < |s.threads| && WillLook(s.threads[u]);
        QuietThreads(s, u);
      }
    } else if pc.Awaiting? && !HasEvent(s.w, pc.ch) {
      assert Answered(s, pc.id, pc.ch);
      if HandedTo(s.threads[0], pc.ch) {
        QuietThreads(s, 0);
      } else if BeingClosed(s.threads, pc.id, pc.ch) {
        var u :| 0 <= u < |s.threads| && HoldsToClose(s.threads[u], pc.id, pc.ch);
        QuietThreads(s, u);
      }
    }
  }

  /** Where the runtime's own steps have run out, every thread is served: a
      receiver still asleep has an empty, open inbox, and a call still waiting is
      registered in a table that is not closed. In particular, once the
      connection is gone nobody waits. */
  lemma NobodyStuck(s0: State, steps: seq<Step>, s: State)
    requires Init(s0) && DisciplinedRuns(s0, steps, s) && Quiescent(s)
    ensures forall t :: 0 <= t < |s.threads| ==> Served(s.w, s.threads[t])
  {
    InitInv(s0);
    DisciplinedRunProgress(s0, steps, s);
    forall t | 0 <= t < |s.threads| ensures Served(s.w, s.threads[t]) {
      ThreadServed(s, t);
    }
  }
}
