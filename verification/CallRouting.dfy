/**
 Where inbound frames end: every frame the read loop decodes is handed to
 exactly one waiter with its id, or appended to the inbox in arrival order.
 */
module CallRouting {

  import opened Wrappers
  import opened CallProtocol
  import opened CallSafety

  /** The frame the read loop is carrying, if any. */
  function Hand(pc: Pc): Option<Frame> {
    match pc
    case Routing(f) => Some(f)
    case Handing(f, _) => Some(f)
    case Queueing(f) => Some(f)
    case _ => None
  }

  predicate DeliveredTo(chans: seq<Chan>, f: Frame, c: nat) {
    c < |chans| && chans[c].log == [Sent(f)]
  }

  ghost predicate Delivered(chans: seq<Chan>, f: Frame) {
    exists c: nat :: DeliveredTo(chans, f, c)
  }

  /** How many arrived frames have left the read loop's hand. */
  function Settled(hand: Option<Frame>, arrived: seq<Frame>): int {
    |arrived| - (if hand.Some? then 1 else 0)
  }

  ghost predicate Increasing(fs: seq<Frame>) {
    forall i, j :: 0 <= i < j < |fs| ==> fs[i].serial < fs[j].serial
  }

  ghost predicate RouteInv(hand: Option<Frame>, chans: seq<Chan>, arrived: seq<Frame>, queued: seq<Frame>) {
    && (forall k :: 0 <= k < |arrived| ==> arrived[k].serial == k)
    && (hand.Some? ==> arrived != [] && hand.value == arrived[|arrived| - 1])
    && (forall c: nat, f :: DeliveredTo(chans, f, c) ==> f.serial < Settled(hand, arrived) && arrived[f.serial] == f)
    && (forall c: nat, d: nat, f, g :: DeliveredTo(chans, f, c) && DeliveredTo(chans, g, d) && c != d ==> f.serial != g.serial)
    && (forall i :: 0 <= i < |queued| ==> queued[i].serial < Settled(hand, arrived) && arrived[queued[i].serial] == queued[i])
    && Increasing(queued)
    && (forall c: nat, f, i :: DeliveredTo(chans, f, c) && 0 <= i < |queued| ==> f.serial != queued[i].serial)
    && (forall k :: 0 <= k < Settled(hand, arrived) ==> Delivered(chans, arrived[k]) || arrived[k] in queued)
  }

  ghost predicate RoutingInv(s: State) {
    && |s.threads| > 0
    && RouteInv(Hand(s.threads[0]), s.w.chans, s.w.arrived, s.w.queued)
    && s.w.queued == s.w.taken + s.w.inbox
  }

  lemma InitRouting(s: State)
    requires Init(s)
    ensures RoutingInv(s)
  {
  }

  /** Channel changes that deliver nothing. */
  lemma SameDeliveries(hand: Option<Frame>, chans: seq<Chan>, chans': seq<Chan>, arrived: seq<Frame>, queued: seq<Frame>)
    requires RouteInv(hand, chans, arrived, queued)
    requires forall f, c: nat :: DeliveredTo(chans', f, c) <==> DeliveredTo(chans, f, c)
    ensures RouteInv(hand, chans', arrived, queued)
  {
    forall k | 0 <= k < Settled(hand, arrived) ensures Delivered(chans', arrived[k]) || arrived[k] in queued {
      if Delivered(chans, arrived[k]) {
        var c: nat :| DeliveredTo(chans, arrived[k], c);
        assert DeliveredTo(chans', arrived[k], c);
      }
    }
  }

  lemma Arrive(chans: seq<Chan>, arrived: seq<Frame>, queued: seq<Frame>, f: Frame)
    requires RouteInv(None, chans, arrived, queued) && f.serial == |arrived|
    ensures RouteInv(Some(f), chans, arrived + [f], queued)
  {
    forall k | 0 <= k < |arrived| ensures Delivered(chans, (arrived + [f])[k]) || (arrived + [f])[k] in queued {
      assert Delivered(chans, arrived[k]) || arrived[k] in queued;
    }
  }

  lemma Deliver(f: Frame, ch: nat, chans: seq<Chan>, chans': seq<Chan>, arrived: seq<Frame>, queued: seq<Frame>)
    requires RouteInv(Some(f), chans, arrived, queued)
    requires ch < |chans| && chans[ch].log == [] && |chans'| == |chans|
    requires forall c :: 0 <= c < |chans| ==> chans'[c].log == if c == ch then [Sent(f)] else chans[c].log
    ensures RouteInv(None, chans', arrived, queued)
  {
    assert DeliveredTo(chans', f, ch);
    forall g, c: nat | DeliveredTo(chans', g, c) ensures (c == ch && g == f) || DeliveredTo(chans, g, c) {}
    forall k | 0 <= k < |arrived| ensures Delivered(chans', arrived[k]) || arrived[k] in queued {
      if k < |arrived| - 1 && Delivered(chans, arrived[k]) {
        var c: nat :| DeliveredTo(chans, arrived[k], c);
        assert DeliveredTo(chans', arrived[k], c);
      }
    }
  }

  lemma Append(f: Frame, chans: seq<Chan>, arrived: seq<Frame>, queued: seq<Frame>)
    requires RouteInv(Some(f), chans, arrived, queued)
    ensures RouteInv(None, chans, arrived, queued + [f])
  {
    forall k | 0 <= k < |arrived| ensures Delivered(chans, arrived[k]) || arrived[k] in queued + [f] {
      if k < |arrived| - 1 {
        assert Delivered(chans, arrived[k]) || arrived[k] in queued;
      }
    }
  }

  /** Steps that neither move a frame between places nor touch a channel. */
  predicate RoutesNothing(step: Step) {
    !(step.FrameArrives? || step.HandOver? || step.Enqueue? || step.CheckInbox? || step.CallRegister? || step.CloseOne? || step.TakeReply?)
  }

  lemma QuietMove(w: World, pc: Pc, step: Step)
    requires Ready(w, pc, step) && RoutesNothing(step)
    ensures
      var m := Act(w, pc, step);
      && Hand(m.pc) == Hand(pc)
      && m.w.chans == w.chans && m.w.arrived == w.arrived && m.w.queued == w.queued && m.w.taken == w.taken && m.w.inbox == w.inbox
  {
  }

  /** Registering, closing a channel or taking a reply delivers no frame. */
  lemma ChanMove(w: World, pc: Pc, step: Step)
    requires Ready(w, pc, step) && (step.CallRegister? || step.CloseOne? || step.TakeReply?)
    requires PcOk(w.table, w.chans, pc)
    ensures
      var m := Act(w, pc, step);
      && Hand(m.pc) == Hand(pc)
      && m.w.arrived == w.arrived && m.w.queued == w.queued && m.w.taken == w.taken && m.w.inbox == w.inbox
      && forall f, c: nat :: DeliveredTo(m.w.chans, f, c) <==> DeliveredTo(w.chans, f, c)
  {
    if step.CloseOne? {
      var ch := pc.rest[step.id].ch;
      assert Unused(w.chans, ch, step.id);
      assert !w.chans[ch].closed ==> Act(w, pc, step).w.chans[ch].log == [Closed];
    }
  }

  lemma ArriveStep(s: State, step: Step)
    requires RoutingInv(s) && Enabled(s, step) && step.FrameArrives?
    ensures RoutingInv(Apply(s, step))
  {
    Arrive(s.w.chans, s.w.arrived, s.w.queued, Frame(|s.w.arrived|, step.frameId, step.variant));
  }

  lemma EnqueueStep(s: State)
    requires RoutingInv(s) && Enabled(s, Enqueue)
    ensures RoutingInv(Apply(s, Enqueue))
  {
    Append(s.threads[0].frame, s.w.chans, s.w.arrived, s.w.queued);
  }

  lemma HandOverStep(s: State)
    requires Inv(s) && RoutingInv(s) && Enabled(s, HandOver)
    ensures RoutingInv(Apply(s, HandOver))
  {
    var pc := s.threads[0];
    assert PcOk(s.w.table, s.w.chans, pc);
    assert ChanOk(s.w.chans[pc.ch]);
    Deliver(pc.frame, pc.ch, s.w.chans, Apply(s, HandOver).w.chans, s.w.arrived, s.w.queued);
  }

  /** Popping the inbox moves its first frame to the end of `taken`. */
  lemma CheckStep(s: State, t: nat)
    requires RoutingInv(s) && Enabled(s, CheckInbox(t))
    ensures RoutingInv(Apply(s, CheckInbox(t)))
  {
    var m := CheckRegion(s.w);
    assert Hand(m.pc) == None == Hand(s.threads[t]);
    assert m.w.taken + m.w.inbox == s.w.taken + s.w.inbox;
  }

  lemma StepRouting(s: State, step: Step)
    requires Inv(s) && RoutingInv(s) && Enabled(s, step)
    ensures RoutingInv(Apply(s, step))
  {
    if step.FrameArrives? {
      ArriveStep(s, step);
    } else if step.Enqueue? {
      EnqueueStep(s);
    } else if step.HandOver? {
      HandOverStep(s);
    } else if step.CheckInbox? {
      CheckStep(s, step.t);
    } else {
      var pc := s.threads[Actor(step)];
      assert PcOk(s.w.table, s.w.chans, pc);
      if RoutesNothing(step) {
        QuietMove(s.w, pc, step);
      } else {
        ChanMove(s.w, pc, step);
        SameDeliveries(Hand(s.threads[0]), s.w.chans, Moves(s, step).w.chans, s.w.arrived, s.w.queued);
      }
    }
  }

  lemma {:induction false} RunRouting(s: State, steps: seq<Step>, s': State)
    requires Inv(s) && RoutingInv(s) && Runs(s, steps, s')
    ensures Inv(s') && RoutingInv(s')
    decreases |steps|
  {
    if steps != [] {
      StepInv(s, steps[0]);
      StepRouting(s, steps[0]);
      RunRouting(Apply(s, steps[0]), steps[1..], s');
    }
  }

  /** In every interleaving each decoded frame is in exactly one place: in the
      read loop's hand (only the latest can be), on exactly one reply channel, or
      in the inbox history. A channel only ever gets a frame that carries its id
      and is not the variant its call sent. The inbox is in arrival order and
      loses nothing: what receivers took, in order, followed by what is still
      there. */
  lemma EveryFrameInOnePlace(s0: State, steps: seq<Step>, s: State)
    requires Init(s0) && Runs(s0, steps, s)
    ensures |s.threads| > 0
    ensures forall f :: f in s.w.arrived ==>
              var held := Hand(s.threads[0]) == Some(f);
              && (held || Delivered(s.w.chans, f) || f in s.w.queued)
              && !(held && Delivered(s.w.chans, f)) && !(held && f in s.w.queued) && !(Delivered(s.w.chans, f) && f in s.w.queued)
    ensures forall f, c: nat, d: nat :: DeliveredTo(s.w.chans, f, c) && DeliveredTo(s.w.chans, f, d) ==> c == d
    ensures forall f, c: nat :: DeliveredTo(s.w.chans, f, c) ==>
              f in s.w.arrived && f.id == Some(s.w.chans[c].id) && (s.w.chans[c].sent == "" || s.w.chans[c].sent != f.variant)
    ensures s.w.queued == s.w.taken + s.w.inbox && Increasing(s.w.queued) && forall f <- s.w.queued :: f in s.w.arrived
  {
    InitInv(s0);
    InitRouting(s0);
    RunRouting(s0, steps, s);
    forall f | f in s.w.arrived
      ensures
        var held := Hand(s.threads[0]) == Some(f);
        && (held || Delivered(s.w.chans, f) || f in s.w.queued)
        && !(held && Delivered(s.w.chans, f)) && !(held && f in s.w.queued) && !(Delivered(s.w.chans, f) && f in s.w.queued)
    {
      OnePlace(Hand(s.threads[0]), s.w.chans, s.w.arrived, s.w.queued, f);
    }
    forall f, c: nat | DeliveredTo(s.w.chans, f, c)
      ensures f in s.w.arrived && f.id == Some(s.w.chans[c].id) && (s.w.chans[c].sent == "" || s.w.chans[c].sent != f.variant)
    {
      RightChannel(s, f, c);
    }
  }

  lemma OnePlace(hand: Option<Frame>, chans: seq<Chan>, arrived: seq<Frame>, queued: seq<Frame>, f: Frame)
    requires RouteInv(hand, chans, arrived, queued) && f in arrived
    ensures hand == Some(f) || Delivered(chans, f) || f in queued
    ensures !(hand == Some(f) && Delivered(chans, f)) && !(hand == Some(f) && f in queued) && !(Delivered(chans, f) && f in queued)
  {
    assert arrived[f.serial] == f;
    assert f.serial < Settled(hand, arrived) || hand == Some(f);
  }

  lemma RightChannel(s: State, f: Frame, c: nat)
    requires Inv(s) && RoutingInv(s) && DeliveredTo(s.w.chans, f, c)
    ensures f in s.w.arrived && f.id == Some(s.w.chans[c].id) && (s.w.chans[c].sent == "" || s.w.chans[c].sent != f.variant)
  {
    assert ChanOk(s.w.chans[c]);
    assert s.w.arrived[f.serial] == f;
  }
}
