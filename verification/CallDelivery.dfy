/**
 Where a frame goes is decided by the table at the moment the read loop looks it up.
 A frame that some registered call is waiting for ends on that call's channel and is
 what the call returns; a frame nobody waits for ends in the inbox. Said over whole
 runs, in terms of the steps taken and of who stood in the table.
 */
module CallDelivery {

  import opened Wrappers
  import opened PendingTable
  import opened CallProtocol
  import opened CallSafety
  import opened CallRouting
  import opened CallProgress
  import opened CallLiveness

  /** The channel of the call that waits for `f`: registered under its id, and not
      having sent this very variant itself. */
  function WaitingFor(w: World, f: Frame): Option<nat> {
    if f.id.Some? && f.id.value in w.table.waiters
       && (w.table.waiters[f.id.value].sent == "" || w.table.waiters[f.id.value].sent != f.variant)
    then Some(w.table.waiters[f.id.value].ch) else None
  }

  /** On this step the read loop looks `f` up and finds `found`. */
  predicate LooksUp(s: State, step: Step, f: Frame, found: Option<nat>) {
    step == RouteLocked && |s.threads| > 0 && s.threads[0] == Routing(f) && WaitingFor(s.w, f) == found
  }

  /** Somewhere in the run the read loop looks `f` up and finds `found`. */
  ghost predicate LookedUp(s: State, steps: seq<Step>, f: Frame, found: Option<nat>)
    decreases |steps|
  {
    && steps != []
    && (LooksUp(s, steps[0], f, found) || (Enabled(s, steps[0]) && LookedUp(Apply(s, steps[0]), steps[1..], f, found)))
  }

  /** `f` is on channel `c`, or about to be sent there; or in the inbox history, or
      about to be appended to it. */
  ghost predicate BoundFor(s: State, f: Frame, place: Option<nat>)
    requires |s.threads| > 0
  {
    match place
    case Some(c) => s.threads[0] == Handing(f, c) || DeliveredTo(s.w.chans, f, c)
    case None => s.threads[0] == Queueing(f) || f in s.w.queued
  }

  lemma QuietKeepsPlaces(s: State, step: Step, f: Frame, place: Option<nat>)
    requires Inv(s) && Enabled(s, step) && Actor(step) != 0
    ensures Apply(s, step).threads[0] == s.threads[0]
    ensures BoundFor(Apply(s, step), f, place) <==> BoundFor(s, f, place)
  {
    var pc := s.threads[Actor(step)];
    assert PcOk(s.w.table, s.w.chans, pc);
    if step.CallRegister? || step.CloseOne? || step.TakeReply? {
      ChanMove(s.w, pc, step);
    } else if !step.CheckInbox? {
      QuietMove(s.w, pc, step);
    }
  }

  lemma HandOverPlaces(s: State, f: Frame, place: Option<nat>)
    requires Inv(s) && Enabled(s, HandOver)
    ensures BoundFor(Apply(s, HandOver), f, place) <==> BoundFor(s, f, place)
  {
    var pc := s.threads[0];
    HandOverSends(s);
    var c: Chan :| c.log == [Sent(pc.frame)] && Apply(s, HandOver).w.chans == s.w.chans[pc.ch := c];
  }

  lemma ReaderCloses(s: State, step: Step, f: Frame, place: Option<nat>)
    requires Inv(s) && Enabled(s, step) && step.CloseOne? && step.t == 0
    ensures BoundFor(Apply(s, step), f, place) <==> BoundFor(s, f, place)
  {
    assert PcOk(s.w.table, s.w.chans, s.threads[0]);
    ChanMove(s.w, s.threads[0], step);
  }

  /** The lookup alone decides. */
  lemma StepPlaces(s: State, step: Step, f: Frame, place: Option<nat>)
    requires Inv(s) && Enabled(s, step)
    ensures BoundFor(Apply(s, step), f, place) <==> BoundFor(s, f, place) || LooksUp(s, step, f, place)
  {
    if Actor(step) != 0 {
      QuietKeepsPlaces(s, step, f, place);
    } else if step.HandOver? {
      HandOverPlaces(s, f, place);
    } else if step.CloseOne? {
      ReaderCloses(s, step, f, place);
    } else if step.RouteLocked? {
      LookupPlaces(s, f, place);
    }
  }

  lemma LookupPlaces(s: State, f: Frame, place: Option<nat>)
    requires Inv(s) && Enabled(s, RouteLocked)
    ensures BoundFor(Apply(s, RouteLocked), f, place) <==> BoundFor(s, f, place) || LooksUp(s, RouteLocked, f, place)
  {
  }

  lemma {:induction false} RunPlaces(s: State, steps: seq<Step>, s': State, f: Frame, place: Option<nat>)
    requires Inv(s) && Runs(s, steps, s')
    ensures |s'.threads| > 0 && (BoundFor(s', f, place) <==> BoundFor(s, f, place) || LookedUp(s, steps, f, place))
    decreases |steps|
  {
    if steps != [] {
      StepInv(s, steps[0]);
      StepPlaces(s, steps[0], f, place);
      RunPlaces(Apply(s, steps[0]), steps[1..], s', f, place);
    }
  }

  /** In every run: a frame is on a channel, or on its way there, iff the read loop,
      looking it up, found the call of that channel waiting for it; and it is in the
      inbox history, or on its way there, iff nobody was found. */
  lemma LookupDecides(s0: State, steps: seq<Step>, s: State)
    requires Init(s0) && Runs(s0, steps, s)
    ensures |s.threads| > 0
    ensures forall f, c: nat :: s.threads[0] == Handing(f, c) || DeliveredTo(s.w.chans, f, c) <==> LookedUp(s0, steps, f, Some(c))
    ensures forall f :: s.threads[0] == Queueing(f) || f in s.w.queued <==> LookedUp(s0, steps, f, None)
  {
    InitInv(s0);
    RunInv(s0, steps, s);
    forall f, c: nat
      ensures s.threads[0] == Handing(f, c) || DeliveredTo(s.w.chans, f, c) <==> LookedUp(s0, steps, f, Some(c))
    {
      RunPlaces(s0, steps, s, f, Some(c));
    }
    forall f
      ensures s.threads[0] == Queueing(f) || f in s.w.queued <==> LookedUp(s0, steps, f, None)
    {
      RunPlaces(s0, steps, s, f, None);
    }
  }

  // ---- the reply reaches its call -----------------------------------------

  /** Other threads do not move the read loop, nor thread `t`. */
  lemma {:induction false} Undisturbed(s: State, steps: seq<Step>, s': State, t: nat)
    requires Runs(s, steps, s') && t < |s.threads| && forall step <- steps :: Actor(step) != t
    ensures |s'.threads| == |s.threads| && s'.threads[t] == s.threads[t]
    decreases |steps|
  {
    if steps != [] {
      Undisturbed(Apply(s, steps[0]), steps[1..], s', t);
    }
  }

  /** The read loop holds a frame that a call waits for. It looks it up; whatever the
      other threads then do, its only next step is to hand the frame over, and that
      leaves exactly this frame on the channel of the call. */
  lemma WaiterGetsFrame(s: State, f: Frame, ch: nat, others: seq<Step>, s': State)
    requires Inv(s) && |s.threads| > 0 && s.threads[0] == Routing(f) && WaitingFor(s.w, f) == Some(ch)
    requires Runs(Apply(s, RouteLocked), others, s') && forall step <- others :: Actor(step) != 0
    ensures Inv(s') && |s'.threads| > 0 && Enabled(s', HandOver)
    ensures forall step :: Enabled(s', step) && Actor(step) == 0 ==> step == HandOver
    ensures DeliveredTo(Apply(s', HandOver).w.chans, f, ch)
    ensures Apply(s', HandOver).w.queued == s'.w.queued
  {
    StepInv(s, RouteLocked);
    var looked := Apply(s, RouteLocked);
    assert looked.threads[0] == Handing(f, ch);
    RunInv(looked, others, s');
    Undisturbed(looked, others, s', 0);
    ReaderCanHand(s');
    HandOverPlacesFrame(s');
  }

  lemma HandOverPlacesFrame(s: State)
    requires Inv(s) && Enabled(s, HandOver)
    ensures forall step :: Enabled(s, step) && Actor(step) == 0 ==> step == HandOver
    ensures DeliveredTo(Apply(s, HandOver).w.chans, s.threads[0].frame, s.threads[0].ch)
    ensures Apply(s, HandOver).w.queued == s.w.queued
  {
    HandOverSends(s);
  }

  /** A frame nobody waits for: the only next step is to append it to the inbox. */
  lemma UnclaimedIsQueued(s: State, f: Frame, others: seq<Step>, s': State)
    requires Inv(s) && |s.threads| > 0 && s.threads[0] == Routing(f) && WaitingFor(s.w, f) == None
    requires Runs(Apply(s, RouteLocked), others, s') && forall step <- others :: Actor(step) != 0
    ensures |s'.threads| > 0 && Enabled(s', Enqueue)
    ensures forall step :: Enabled(s', step) && Actor(step) == 0 ==> step == Enqueue
    ensures Apply(s', Enqueue).w.queued == s'.w.queued + [f] && Apply(s', Enqueue).w.inbox == s'.w.inbox + [f]
    ensures Apply(s', Enqueue).w.chans == s'.w.chans && Apply(s', Enqueue).threads[0] == Notifying
  {
    var looked := Apply(s, RouteLocked);
    assert looked.threads[0] == Queueing(f);
    Undisturbed(looked, others, s', 0);
    OnlyEnqueue(s');
  }

  lemma OnlyEnqueue(s: State)
    requires |s.threads| > 0 && s.threads[0].Queueing?
    ensures Enabled(s, Enqueue) && forall step :: Enabled(s, step) && Actor(step) == 0 ==> step == Enqueue
  {
  }

  lemma {:induction false} RunOwnChannels(s: State, steps: seq<Step>, s': State)
    requires OwnChannels(s) && Runs(s, steps, s')
    ensures OwnChannels(s')
    decreases |steps|
  {
    if steps != [] {
      StepOwnChannels(s, steps[0]);
      RunOwnChannels(Apply(s, steps[0]), steps[1..], s');
    }
  }

  /** A frame that stands on the channel of a waiting call can be taken by that call
      at once, and is what the call returns. */
  lemma DeliveredIsReturned(s: State, t: nat, f: Frame)
    requires Inv(s) && OwnChannels(s) && t < |s.threads| && s.threads[t].Awaiting?
    requires DeliveredTo(s.w.chans, f, s.threads[t].ch)
    ensures Enabled(s, TakeReply(t)) && Apply(s, TakeReply(t)).threads[t] == Done(Reply(s.threads[t].id, f))
  {
    assert ChanOk(s.w.chans[s.threads[t].ch]);
  }

  /** Thread `t` waits on the channel the table has for its id, and `f` carries that id
      and is not the variant the call sent. */
  predicate IsReplyTo(s: State, t: nat, f: Frame) {
    && 0 < t < |s.threads| && s.threads[t].Awaiting?
    && Registered(s.w, s.threads[t].id, s.threads[t].ch) && f.id == Some(s.threads[t].id)
    && s.threads[t].ch < |s.w.chans| && (s.w.chans[s.threads[t].ch].sent == "" || s.w.chans[s.threads[t].ch].sent != f.variant)
  }

  lemma ReplyIsWaitedFor(s: State, t: nat, f: Frame)
    requires Inv(s) && IsReplyTo(s, t, f)
    ensures WaitingFor(s.w, f) == Some(s.threads[t].ch)
  {
  }

  /** The read loop can hand over, and then thread `t` can return `f`. */
  ghost predicate CanReturn(s: State, t: nat, id: Id, f: Frame) {
    && Enabled(s, HandOver) && Enabled(Apply(s, HandOver), TakeReply(t))
    && Apply(Apply(s, HandOver), TakeReply(t)).threads[t] == Done(Reply(id, f))
  }

  lemma WaitingCallReturns(s: State, t: nat, f: Frame, others: seq<Step>, s': State)
    requires Inv(s) && OwnChannels(s) && IsReplyTo(s, t, f) && s.threads[0] == Routing(f)
    requires Runs(Apply(s, RouteLocked), others, s') && forall step <- others :: Actor(step) != 0 && Actor(step) != t
    ensures CanReturn(s', t, s.threads[t].id, f)
  {
    ReplyIsWaitedFor(s, t, f);
    WaiterGetsFrame(s, f, s.threads[t].ch, others, s');
    Undisturbed(Apply(s, RouteLocked), others, s', t);
    StepOwnChannels(s, RouteLocked);
    RunOwnChannels(Apply(s, RouteLocked), others, s');
    StepInv(s', HandOver);
    StepOwnChannels(s', HandOver);
    DeliveredIsReturned(Apply(s', HandOver), t, f);
  }

  lemma Reachable(s0: State, steps: seq<Step>, s: State)
    requires Init(s0) && Runs(s0, steps, s)
    ensures Inv(s) && OwnChannels(s)
  {
    InitInv(s0);
    RunInv(s0, steps, s);
    RunOwnChannels(s0, steps, s);
  }

  /** From the lookup to the caller, in every run: a registered call waits on its
      channel for its id, and the read loop holds a frame with that id that is not the
      variant the call sent. Whatever the other threads do in between, the frame is
      handed over, and the call can return exactly this frame. */
  lemma CallGetsItsReply(s0: State, steps: seq<Step>, s: State, t: nat, f: Frame, others: seq<Step>, s': State)
    requires Init(s0) && Runs(s0, steps, s) && IsReplyTo(s, t, f) && s.threads[0] == Routing(f)
    requires Runs(Apply(s, RouteLocked), others, s') && forall step <- others :: Actor(step) != 0 && Actor(step) != t
    ensures CanReturn(s', t, s.threads[t].id, f)
  {
    Reachable(s0, steps, s);
    WaitingCallReturns(s, t, f, others, s');
  }

  // ---- a call that still waits has missed nothing -------------------------

  lemma RemovedForGood(s: State, step: Step, id: Id, ch: nat)
    requires Enabled(s, step) && ch < |s.w.chans| && !Registered(s.w, id, ch)
    ensures ch < |Apply(s, step).w.chans| && !Registered(Apply(s, step).w, id, ch)
  {
  }

  lemma {:induction false} RegisteredThroughout(s: State, steps: seq<Step>, s': State, id: Id, ch: nat)
    requires Runs(s, steps, s') && ch < |s.w.chans| && Registered(s'.w, id, ch)
    ensures Registered(s.w, id, ch)
    decreases |steps|
  {
    if steps != [] {
      if !Registered(s.w, id, ch) {
        RemovedForGood(s, steps[0], id, ch);
      }
      RegisteredThroughout(Apply(s, steps[0]), steps[1..], s', id, ch);
    }
  }

  /** While a call is registered, no frame that answers it goes past it: neither into
      the inbox nor to another channel. */
  lemma {:induction false} MissesNothing(s: State, steps: seq<Step>, s': State, id: Id, ch: nat, f: Frame, place: Option<nat>)
    requires Inv(s) && Runs(s, steps, s') && ch < |s.w.chans| && Registered(s'.w, id, ch)
    requires f.id == Some(id) && (s.w.chans[ch].sent == "" || s.w.chans[ch].sent != f.variant)
    ensures !LookedUp(s, steps, f, place)
    decreases |steps|
  {
    if steps != [] {
      var next := Apply(s, steps[0]);
      RegisteredThroughout(s, steps, s', id, ch);
      RegisteredThroughout(next, steps[1..], s', id, ch);
      StepInv(s, steps[0]);
      StepMakesChannels(s, steps[0], ch, s.w.chans[ch].id, s.w.chans[ch].sent);
      MissesNothing(next, steps[1..], s', id, ch, f, place);
      if LooksUp(s, steps[0], f, place) {
        TakenOut(s, f, id, ch);
      }
    }
  }

  /** Being found takes a call out of the table. */
  lemma TakenOut(s: State, f: Frame, id: Id, ch: nat)
    requires Inv(s) && |s.threads| > 0 && s.threads[0] == Routing(f) && f.id == Some(id) && Registered(s.w, id, ch)
    requires ch < |s.w.chans| && (s.w.chans[ch].sent == "" || s.w.chans[ch].sent != f.variant)
    ensures !Registered(Apply(s, RouteLocked).w, id, ch)
  {
  }

  // ---- which call a reply belongs to --------------------------------------

  /** On this step thread `t` calls with `id`, sending variant `sent`, and is given the
      new channel `ch`. */
  predicate Calls(s: State, step: Step, t: nat, id: Id, sent: string, ch: nat) {
    step == CallRegister(t, id, sent) && s.w.table.err.None? && ch == |s.w.chans|
  }

  ghost predicate Called(s: State, steps: seq<Step>, t: nat, id: Id, sent: string, ch: nat)
    decreases |steps|
  {
    && steps != [] && Enabled(s, steps[0])
    && (Calls(s, steps[0], t, id, sent, ch) || Called(Apply(s, steps[0]), steps[1..], t, id, sent, ch))
  }

  ghost predicate CalledOn(s: State, steps: seq<Step>, t: nat, id: Id, ch: nat) {
    exists sent :: Called(s, steps, t, id, sent, ch)
  }

  ghost predicate SomeoneCalled(s: State, steps: seq<Step>, id: Id, sent: string, ch: nat) {
    exists t :: Called(s, steps, t, id, sent, ch)
  }

  lemma CalledEarlier(s: State, steps: seq<Step>, t: nat, id: Id, ch: nat)
    requires steps != [] && Enabled(s, steps[0]) && CalledOn(Apply(s, steps[0]), steps[1..], t, id, ch)
    ensures CalledOn(s, steps, t, id, ch)
  {
    var sent :| Called(Apply(s, steps[0]), steps[1..], t, id, sent, ch);
    assert Called(s, steps, t, id, sent, ch);
  }

  lemma CalledFirst(s: State, steps: seq<Step>, t: nat, id: Id, sent: string, ch: nat)
    requires steps != [] && Enabled(s, steps[0]) && Calls(s, steps[0], t, id, sent, ch)
    ensures CalledOn(s, steps, t, id, ch)
  {
    assert Called(s, steps, t, id, sent, ch);
  }

  predicate MadeFor(chans: seq<Chan>, ch: nat, id: Id, sent: string) {
    ch < |chans| && chans[ch].id == id && chans[ch].sent == sent
  }

  /** A channel is made by a call and keeps what that call said. */
  lemma StepMakesChannels(s: State, step: Step, ch: nat, id: Id, sent: string)
    requires Enabled(s, step)
    ensures MadeFor(Apply(s, step).w.chans, ch, id, sent)
       <==> MadeFor(s.w.chans, ch, id, sent) || Calls(s, step, Actor(step), id, sent, ch)
  {
  }

  lemma {:induction false} CallMakesChannel(s: State, steps: seq<Step>, s': State, t: nat, ch: nat, id: Id, sent: string)
    requires Runs(s, steps, s') && (MadeFor(s.w.chans, ch, id, sent) || Called(s, steps, t, id, sent, ch))
    ensures MadeFor(s'.w.chans, ch, id, sent)
    decreases |steps|
  {
    if steps != [] {
      StepMakesChannels(s, steps[0], ch, id, sent);
      CallMakesChannel(Apply(s, steps[0]), steps[1..], s', t, ch, id, sent);
    }
  }

  /** Every channel of a run was made by a call of the run, for its id and variant. */
  lemma {:induction false} ChannelIsACalls(s: State, steps: seq<Step>, s': State, ch: nat)
    requires Runs(s, steps, s') && |s.w.chans| <= ch < |s'.w.chans|
    ensures SomeoneCalled(s, steps, s'.w.chans[ch].id, s'.w.chans[ch].sent, ch)
    decreases |steps|
  {
    var id, sent := s'.w.chans[ch].id, s'.w.chans[ch].sent;
    var next := Apply(s, steps[0]);
    if ch < |next.w.chans| {
      var c := next.w.chans[ch];
      StepMakesChannels(s, steps[0], ch, c.id, c.sent);
      CallMakesChannel(next, steps[1..], s', 0, ch, c.id, c.sent);
      assert Called(s, steps, Actor(steps[0]), id, sent, ch);
    } else {
      ChannelIsACalls(next, steps[1..], s', ch);
      var t :| Called(next, steps[1..], t, id, sent, ch);
      assert Called(s, steps, t, id, sent, ch);
    }
  }

  predicate Flying(s: State, t: nat, id: Id, ch: nat) {
    t < |s.threads| && InFlight(s.threads[t]) && s.threads[t].id == id && s.threads[t].ch == ch
  }

  lemma FlightStarts(s: State, steps: seq<Step>, t: nat, id: Id, ch: nat)
    requires steps != [] && Enabled(s, steps[0]) && Flying(Apply(s, steps[0]), t, id, ch)
    ensures Flying(s, t, id, ch) || CalledOn(s, steps, t, id, ch)
  {
    if Actor(steps[0]) == t {
      FlightMove(s.w, s.threads[t], steps[0]);
      if steps[0].CallRegister? {
        CalledFirst(s, steps, t, id, steps[0].sent, ch);
      }
    }
  }

  /** The channel a call returned from is the one it was given. */
  ghost predicate RepliedOn(s: State, steps: seq<Step>, s': State, t: nat, id: Id, f: Frame, ch: nat) {
    DeliveredTo(s'.w.chans, f, ch) && (Flying(s, t, id, ch) || CalledOn(s, steps, t, id, ch))
  }

  predicate ReturnedReply(s: State, t: nat, id: Id, f: Frame) {
    t < |s.threads| && s.threads[t] == Done(Reply(id, f))
  }

  lemma {:induction false} RunReplies(s: State, steps: seq<Step>, s': State, t: nat, id: Id, f: Frame)
    requires Inv(s) && Runs(s, steps, s') && ReturnedReply(s', t, id, f)
    ensures ReturnedReply(s, t, id, f) || exists ch :: RepliedOn(s, steps, s', t, id, f, ch)
    decreases |steps|
  {
    if steps != [] {
      var next := Apply(s, steps[0]);
      StepInv(s, steps[0]);
      RunReplies(next, steps[1..], s', t, id, f);
      if ReturnedReply(next, t, id, f) {
        if !ReturnedReply(s, t, id, f) {
          ReplyMove(s, steps[0]);
          OneEvent(s, steps, s', f, s.threads[t].ch);
          assert RepliedOn(s, steps, s', t, id, f, s.threads[t].ch);
        }
      } else {
        var ch :| RepliedOn(next, steps[1..], s', t, id, f, ch);
        if Flying(next, t, id, ch) {
          FlightStarts(s, steps, t, id, ch);
        } else {
          CalledEarlier(s, steps, t, id, ch);
        }
        assert RepliedOn(s, steps, s', t, id, f, ch);
      }
    }
  }

  /** A call returns a reply only by taking it from its own channel. */
  lemma ReplyMove(s: State, step: Step)
    requires Inv(s) && Enabled(s, step) && Moves(s, step).pc.Done? && Moves(s, step).pc.out.Reply?
    ensures
      var was, out := s.threads[Actor(step)], Moves(s, step).pc.out;
      was.Awaiting? && was.id == out.id && DeliveredTo(s.w.chans, out.frame, was.ch) && s.w.chans[was.ch].buf == [out.frame]
  {
    var pc := s.threads[Actor(step)];
    assert PcOk(s.w.table, s.w.chans, pc);
    if pc.Awaiting? && pc.ch < |s.w.chans| {
      assert ChanOk(s.w.chans[pc.ch]);
    }
  }

  /** What has been sent on a channel stays in its history. */
  lemma {:induction false} OneEvent(s: State, steps: seq<Step>, s': State, f: Frame, ch: nat)
    requires Inv(s) && Runs(s, steps, s') && DeliveredTo(s.w.chans, f, ch)
    ensures DeliveredTo(s'.w.chans, f, ch)
    decreases |steps|
  {
    if steps != [] {
      var next := Apply(s, steps[0]);
      StepInv(s, steps[0]);
      StepPlaces(s, steps[0], f, Some(ch));
      LogsGrow(s, steps[0], ch);
      assert PcOk(next.w.table, next.w.chans, next.threads[0]);
      OneEvent(next, steps[1..], s', f, ch);
    }
  }

  lemma LogsGrow(s: State, step: Step, ch: nat)
    requires Enabled(s, step) && ch < |s.w.chans|
    ensures ch < |Apply(s, step).w.chans| && |Apply(s, step).w.chans[ch].log| >= |s.w.chans[ch].log|
  {
  }

  /** What a call returns: a frame with its own id, not the variant it sent, found by
      the read loop to be waited for on the channel this very call was given. */
  lemma ReplyIsTheCalls(s0: State, steps: seq<Step>, s: State, t: nat, id: Id, f: Frame)
    requires Init(s0) && Runs(s0, steps, s) && ReturnedReply(s, t, id, f)
    ensures f.id == Some(id)
    ensures exists ch, sent ::
              Called(s0, steps, t, id, sent, ch) && LookedUp(s0, steps, f, Some(ch)) && (sent == "" || sent != f.variant)
  {
    InitInv(s0);
    RunInv(s0, steps, s);
    RunReplies(s0, steps, s, t, id, f);
    var ch: nat :| RepliedOn(s0, steps, s, t, id, f, ch);
    assert !Flying(s0, t, id, ch);
    var sent :| Called(s0, steps, t, id, sent, ch);
    RunPlaces(s0, steps, s, f, Some(ch));
    CallMakesChannel(s0, steps, s, t, ch, id, sent);
    assert ChanOk(s.w.chans[ch]);
  }

  // ---- no call leaves its entry behind ------------------------------------

  ghost predicate SomeoneFlies(s: State, id: Id, ch: nat) {
    exists t :: Flying(s, t, id, ch)
  }

  /** Every entry of the table belongs to a call in flight. */
  ghost predicate EntriesFly(s: State) {
    forall id <- s.w.table.waiters :: SomeoneFlies(s, id, s.w.table.waiters[id].ch)
  }

  /** A registered call stays in flight, unless it takes its entry with it. */
  lemma FliesOn(s: State, step: Step, t: nat, id: Id, ch: nat)
    requires Inv(s) && Enabled(s, step) && Flying(s, t, id, ch) && Registered(s.w, id, ch) && Registered(Apply(s, step).w, id, ch)
    ensures Flying(Apply(s, step), t, id, ch)
  {
    assert ChanOk(s.w.chans[ch]);
  }

  lemma StepEntries(s: State, step: Step)
    requires Inv(s) && EntriesFly(s) && Enabled(s, step)
    ensures EntriesFly(Apply(s, step))
  {
    var s' := Apply(s, step);
    forall id | id in s'.w.table.waiters
      ensures SomeoneFlies(s', id, s'.w.table.waiters[id].ch)
    {
      var ch := s'.w.table.waiters[id].ch;
      EntryComesFrom(s, step, id, ch);
      if Registered(s.w, id, ch) {
        var t :| Flying(s, t, id, ch);
        FliesOn(s, step, t, id, ch);
      } else {
        assert Flying(s', Actor(step), id, ch);
      }
    }
  }

  /** An entry was there before, or is that of the call just made. */
  lemma EntryComesFrom(s: State, step: Step, id: Id, ch: nat)
    requires Enabled(s, step) && Registered(Apply(s, step).w, id, ch)
    ensures Registered(s.w, id, ch) || (step.CallRegister? && Flying(Apply(s, step), step.t, id, ch))
  {
  }

  lemma {:induction false} RunEntries(s: State, steps: seq<Step>, s': State)
    requires Inv(s) && EntriesFly(s) && Runs(s, steps, s')
    ensures EntriesFly(s')
    decreases |steps|
  {
    if steps != [] {
      StepInv(s, steps[0]);
      StepEntries(s, steps[0]);
      RunEntries(Apply(s, steps[0]), steps[1..], s');
    }
  }

  /** In every run a call that has ended, however it ended, is not in the table. */
  lemma NothingLeaks(s0: State, steps: seq<Step>, s: State)
    requires Init(s0) && Runs(s0, steps, s)
    ensures EntriesFly(s)
  {
    InitInv(s0);
    RunEntries(s0, steps, s);
  }
}
