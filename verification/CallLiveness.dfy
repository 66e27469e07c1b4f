/**
 Nobody is left waiting: the one-slot inbox signal loses no wakeup, a call whose
 id is its own always has its answer coming, and the runtime's own steps run out
 only in states where every waiting thread really has nothing to receive.
 */
module CallLiveness {

  import opened PendingTable
  import opened CallProtocol
  import opened CallSafety

  // ---- the inbox signal ---------------------------------------------------

  /** About to send the wakeup token, or about to look at the inbox. */
  predicate WillLook(pc: Pc) {
    pc.RecvChecking? || pc.RecvNotifying? || pc.Notifying? || pc.LastNotify?
  }

  predicate Receivable(w: World) {
    w.inbox != [] || w.inboxDone
  }

  ghost predicate SomeoneWillLook(s: State) {
    exists t :: 0 <= t < |s.threads| && WillLook(s.threads[t])
  }

  ghost predicate WakeInv(s: State) {
    Receivable(s.w) ==> s.w.token || SomeoneWillLook(s)
  }

  lemma WakeMove(w: World, pc: Pc, step: Step)
    requires Ready(w, pc, step)
    ensures
      var m := Act(w, pc, step);
      || m.w.token || WillLook(m.pc) || !Receivable(m.w)
      || (Receivable(w) && !w.token && !WillLook(pc))
  {
  }

  lemma StepWake(s: State, step: Step)
    requires WakeInv(s) && Enabled(s, step)
    ensures WakeInv(Apply(s, step))
  {
    var t := Actor(step);
    WakeMove(s.w, s.threads[t], step);
    var s' := Apply(s, step);
    if WillLook(s'.threads[t]) {
      assert SomeoneWillLook(s');
    } else if Receivable(s.w) && !s.w.token && !WillLook(s.threads[t]) {
      var u :| 0 <= u < |s.threads| && WillLook(s.threads[u]);
      assert WillLook(s'.threads[u]);
    }
  }

  lemma {:induction false} RunWake(s: State, steps: seq<Step>, s': State)
    requires WakeInv(s) && Runs(s, steps, s')
    ensures WakeInv(s')
    decreases |steps|
  {
    if steps != [] {
      StepWake(s, steps[0]);
      RunWake(Apply(s, steps[0]), steps[1..], s');
    }
  }

  /** No lost wakeup, for any number of concurrent receivers in any interleaving:
      while there is something to receive, the token is there, or some thread is
      about to send it, or some receiver is about to look. */
  lemma NoLostWakeup(s0: State, steps: seq<Step>, s: State)
    requires Init(s0) && Runs(s0, steps, s)
    requires Receivable(s.w)
    ensures s.w.token || SomeoneWillLook(s)
  {
    RunWake(s0, steps, s);
  }

  // ---- every call is accounted for ----------------------------------------

  predicate InCall(pc: Pc) {
    pc.Sending? || pc.Awaiting?
  }

  predicate InFlight(pc: Pc) {
    InCall(pc) || pc.Cancelling?
  }

  predicate HoldsToClose(pc: Pc, id: Id, ch: nat) {
    pc.Closing? && id in pc.rest && pc.rest[id].ch == ch
  }

  predicate HandedTo(pc: Pc, ch: nat) {
    pc.Handing? && pc.ch == ch
  }

  predicate Registered(w: World, id: Id, ch: nat) {
    id in w.table.waiters && w.table.waiters[id].ch == ch
  }

  predicate HasEvent(w: World, ch: nat) {
    ch < |w.chans| && w.chans[ch].log != []
  }

  ghost predicate BeingClosed(threads: seq<Pc>, id: Id, ch: nat) {
    exists u :: 0 <= u < |threads| && HoldsToClose(threads[u], id, ch)
  }

  /** The reply channel `ch` made for `id` is still in the table, or has its
      event, or the read loop or a closer is about to give it one. */
  ghost predicate Answered(s: State, id: Id, ch: nat) {
    || Registered(s.w, id, ch)
    || HasEvent(s.w, ch)
    || (|s.threads| > 0 && HandedTo(s.threads[0], ch))
    || BeingClosed(s.threads, id, ch)
  }

  /** `step` takes the table entry of channel `ch` away: a call registers the
      same id, or a call with that id cancels. */
  predicate Steals(s: State, step: Step, id: Id, ch: nat)
    requires Enabled(s, step)
  {
    && Registered(s.w, id, ch)
    && ((step.CallRegister? && step.id == id) || (step.CancelWaiter? && s.threads[step.t].id == id))
  }

  /** Steps that move no reply channel from one holder to another. */
  predicate Bystander(step: Step) {
    !(step.CallRegister? || step.CancelWaiter? || step.CloseLocked? || step.CloseOne? || step.RouteLocked? || step.HandOver?)
  }

  lemma BystanderMove(w: World, pc: Pc, step: Step, id: Id, ch: nat)
    requires Ready(w, pc, step) && Bystander(step)
    ensures
      var m := Act(w, pc, step);
      && (Registered(m.w, id, ch) <==> Registered(w, id, ch)) && (HasEvent(m.w, ch) <==> HasEvent(w, ch))
      && (HoldsToClose(m.pc, id, ch) <==> HoldsToClose(pc, id, ch)) && (HandedTo(m.pc, ch) <==> HandedTo(pc, ch))
  {
  }

  /** If the actor's claim on `ch` is unchanged, so is everybody's. */
  lemma SameHolders(threads: seq<Pc>, t: nat, pc: Pc, id: Id, ch: nat)
    requires t < |threads|
    ensures BeingClosed(threads[t := pc], id, ch)
       <==> HoldsToClose(pc, id, ch) || exists u :: 0 <= u < |threads| && u != t && HoldsToClose(threads[u], id, ch)
    ensures BeingClosed(threads, id, ch)
       <==> HoldsToClose(threads[t], id, ch) || exists u :: 0 <= u < |threads| && u != t && HoldsToClose(threads[u], id, ch)
  {
    var threads' := threads[t := pc];
    assert forall u :: 0 <= u < |threads| && u != t ==> threads'[u] == threads[u];
    assert threads'[t] == pc;
  }

  /** A channel in the table has no event yet and no other holder. */
  lemma OnlyInTable(s: State, id: Id, ch: nat)
    requires Inv(s) && Registered(s.w, id, ch)
    ensures !HasEvent(s.w, ch) && !HandedTo(s.threads[0], ch) && !BeingClosed(s.threads, id, ch)
    ensures ch < |s.w.chans| && s.w.table.err.None?
  {
    assert PcOk(s.w.table, s.w.chans, s.threads[0]);
    forall u | 0 <= u < |s.threads| ensures !HoldsToClose(s.threads[u], id, ch) {
      assert PcOk(s.w.table, s.w.chans, s.threads[u]);
    }
  }

  lemma TableStepAnswers(s: State, step: Step, id: Id, ch: nat)
    requires Inv(s) && Enabled(s, step) && Owned(s.w.chans, ch, id)
    requires step.CallRegister? || step.CancelWaiter?
    ensures Answered(Apply(s, step), id, ch) <==> Answered(s, id, ch) && !Steals(s, step, id, ch)
  {
    SameHolders(s.threads, Actor(step), Moves(s, step).pc, id, ch);
    if Registered(s.w, id, ch) {
      OnlyInTable(s, id, ch);
    }
  }

  lemma RouteAnswers(s: State, id: Id, ch: nat)
    requires Inv(s) && Enabled(s, RouteLocked) && Owned(s.w.chans, ch, id)
    ensures Answered(Apply(s, RouteLocked), id, ch) <==> Answered(s, id, ch)
  {
    SameHolders(s.threads, 0, Moves(s, RouteLocked).pc, id, ch);
    var f := s.threads[0].frame;
    if f.id.Some? && f.id.value in s.w.table.waiters {
      assert Unused(s.w.chans, s.w.table.waiters[f.id.value].ch, f.id.value);
    }
  }

  lemma HandOverAnswers(s: State, id: Id, ch: nat)
    requires Inv(s) && Enabled(s, HandOver) && Owned(s.w.chans, ch, id)
    ensures Answered(Apply(s, HandOver), id, ch) <==> Answered(s, id, ch)
  {
    var pc := s.threads[0];
    HandOverSends(s);
    SameHolders(s.threads, 0, Reading, id, ch);
    assert Registered(Apply(s, HandOver).w, id, ch) <==> Registered(s.w, id, ch);
    assert HasEvent(Apply(s, HandOver).w, ch) <==> HasEvent(s.w, ch) || ch == pc.ch;
  }

  lemma HandOverSends(s: State)
    requires Inv(s) && Enabled(s, HandOver)
    ensures
      var pc := s.threads[0];
      && s.w.chans[pc.ch].log == []
      && Apply(s, HandOver) == State(s.w.(chans := Apply(s, HandOver).w.chans), s.threads[0 := Reading])
      && exists c: Chan :: c.log == [Sent(pc.frame)] && Apply(s, HandOver).w.chans == s.w.chans[pc.ch := c]
  {
    var pc := s.threads[0];
    assert PcOk(s.w.table, s.w.chans, pc);
    assert ChanOk(s.w.chans[pc.ch]);
    assert Apply(s, HandOver).w.chans == s.w.chans[pc.ch := Apply(s, HandOver).w.chans[pc.ch]];
  }

  lemma CloseLockedAnswers(s: State, t: nat, id: Id, ch: nat)
    requires Inv(s) && Enabled(s, CloseLocked(t)) && Owned(s.w.chans, ch, id)
    ensures Answered(Apply(s, CloseLocked(t)), id, ch) <==> Answered(s, id, ch)
  {
    SameHolders(s.threads, t, Moves(s, CloseLocked(t)).pc, id, ch);
  }

  lemma CloseOneAnswers(s: State, t: nat, cid: Id, id: Id, ch: nat)
    requires Inv(s) && Enabled(s, CloseOne(t, cid)) && Owned(s.w.chans, ch, id)
    ensures Answered(Apply(s, CloseOne(t, cid)), id, ch) <==> Answered(s, id, ch)
  {
    var pc := s.threads[t];
    assert PcOk(s.w.table, s.w.chans, pc);
    assert Unused(s.w.chans, pc.rest[cid].ch, cid);
    assert ChanOk(s.w.chans[pc.rest[cid].ch]);
    SameHolders(s.threads, t, Moves(s, CloseOne(t, cid)).pc, id, ch);
    assert Apply(s, CloseOne(t, cid)).w.chans[pc.rest[cid].ch].log == [Closed];
  }

  /** A call's answer is lost by exactly the steps that steal its table entry. */
  lemma AnswerLostExactly(s: State, step: Step, id: Id, ch: nat)
    requires Inv(s) && Enabled(s, step) && Owned(s.w.chans, ch, id)
    ensures Answered(Apply(s, step), id, ch) <==> Answered(s, id, ch) && !Steals(s, step, id, ch)
  {
    if Bystander(step) {
      BystanderMove(s.w, s.threads[Actor(step)], step, id, ch);
      SameHolders(s.threads, Actor(step), Moves(s, step).pc, id, ch);
    } else if step.CallRegister? || step.CancelWaiter? {
      TableStepAnswers(s, step, id, ch);
    } else if step.CloseLocked? {
      CloseLockedAnswers(s, step.t, id, ch);
    } else if step.CloseOne? {
      CloseOneAnswers(s, step.t, step.id, id, ch);
    } else if step.RouteLocked? {
      RouteAnswers(s, id, ch);
    } else {
      HandOverAnswers(s, id, ch);
    }
  }

  /** No two calls in flight share an id. */
  ghost predicate DistinctIds(s: State) {
    forall t, u :: 0 <= t < u < |s.threads| && InFlight(s.threads[t]) && InFlight(s.threads[u]) ==> s.threads[t].id != s.threads[u].id
  }

  /** The caller's side of the bargain: a new call uses an id no call in flight has. */
  ghost predicate FreshId(s: State, step: Step) {
    step.CallRegister? ==> forall t :: 0 <= t < |s.threads| && InFlight(s.threads[t]) ==> s.threads[t].id != step.id
  }

  ghost predicate AllAnswered(s: State) {
    forall t :: 0 <= t < |s.threads| && InCall(s.threads[t]) ==> Answered(s, s.threads[t].id, s.threads[t].ch)
  }

  lemma FlightMove(w: World, pc: Pc, step: Step)
    requires Ready(w, pc, step)
    ensures
      var m := Act(w, pc, step);
      InFlight(m.pc) ==> if step.CallRegister? then m.pc == Sending(step.id, |w.chans|) && Registered(m.w, step.id, |w.chans|)
                         else InFlight(pc) && m.pc.id == pc.id && m.pc.ch == pc.ch && (InCall(m.pc) ==> InCall(pc))
  {
  }

  lemma StepAnswers(s: State, step: Step)
    requires Inv(s) && Enabled(s, step) && DistinctIds(s) && AllAnswered(s) && FreshId(s, step)
    ensures DistinctIds(Apply(s, step)) && AllAnswered(Apply(s, step))
  {
    var a := Actor(step);
    var s' := Apply(s, step);
    FlightMove(s.w, s.threads[a], step);
    forall t | 0 <= t < |s.threads| && InCall(s'.threads[t]) ensures Answered(s', s'.threads[t].id, s'.threads[t].ch) {
      if t == a && step.CallRegister? {
      } else {
        var pc := s.threads[t];
        assert PcOk(s.w.table, s.w.chans, pc);
        AnswerLostExactly(s, step, pc.id, pc.ch);
        assert t != a ==> !(step.CancelWaiter? && s.threads[a].id == pc.id);
      }
    }
  }

  ghost predicate DisciplinedRuns(s: State, steps: seq<Step>, s': State)
    decreases |steps|
  {
    if steps == [] then s' == s
    else Enabled(s, steps[0]) && FreshId(s, steps[0]) && DisciplinedRuns(Apply(s, steps[0]), steps[1..], s')
  }

  lemma {:induction false} DisciplinedRunAnswers(s: State, steps: seq<Step>, s': State)
    requires Inv(s) && WakeInv(s) && DistinctIds(s) && AllAnswered(s) && DisciplinedRuns(s, steps, s')
    ensures Inv(s') && WakeInv(s') && DistinctIds(s') && AllAnswered(s')
    decreases |steps|
  {
    if steps != [] {
      StepInv(s, steps[0]);
      StepWake(s, steps[0]);
      StepAnswers(s, steps[0]);
      DisciplinedRunAnswers(Apply(s, steps[0]), steps[1..], s');
    }
  }

  /** With distinct ids in flight, every call in every interleaving is still
      registered, or has its value or close, or is about to be given it. */
  lemma EveryCallAnswered(s0: State, steps: seq<Step>, s: State)
    requires Init(s0) && DisciplinedRuns(s0, steps, s)
    ensures AllAnswered(s)
  {
    InitInv(s0);
    DisciplinedRunAnswers(s0, steps, s);
  }

  /** Without that discipline a call is lost for good: once its entry has been
      stolen, nothing but its own giving up ever moves it again. */
  lemma LostCallStaysLost(s: State, t: nat, step: Step)
    requires Inv(s) && Enabled(s, step) && t < |s.threads|
    requires InCall(s.threads[t]) && !Answered(s, s.threads[t].id, s.threads[t].ch)
    requires !(Actor(step) == t && (step.CallCtxDone? || step.FrameFailed?))
    ensures
      var pc := Apply(s, step).threads[t];
      InCall(pc) && pc.id == s.threads[t].id && pc.ch == s.threads[t].ch && !Answered(Apply(s, step), pc.id, pc.ch)
  {
    var pc := s.threads[t];
    assert PcOk(s.w.table, s.w.chans, pc);
    assert ChanOk(s.w.chans[pc.ch]);
    AnswerLostExactly(s, step, pc.id, pc.ch);
  }

  /** Two calls registering one id: the first is lost. */
  lemma DuplicateIdLosesCall(s0: State, id: Id) returns (s: State)
    requires Init(s0) && |s0.threads| == 3
    ensures Runs(s0, [CallRegister(1, id, ""), CallRegister(2, id, "")], s)
    ensures |s.threads| == 3 && InCall(s.threads[1]) && !Answered(s, s.threads[1].id, s.threads[1].ch)
  {
    var first, second := CallRegister(1, id, ""), CallRegister(2, id, "");
    var s1 := Apply(s0, first);
    s := Apply(s1, second);
    assert Runs(s1, [second], s) by {
      assert Runs(s, [], s);
      assert [second][1..] == [];
    }
    assert [first, second][1..] == [second];
    assert s.threads == [Reading, Sending(id, 0), Sending(id, 1)];
  }
}
