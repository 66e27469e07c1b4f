/**
 What every interleaving of the call protocol keeps: each reply channel sees at
 most one event, nothing is sent on or closed after a close, no send blocks,
 and the first close cause is the one everybody is told.
 */
module CallSafety {

  import opened Wrappers
  import opened PendingTable
  import opened CallProtocol

  predicate ReaderPc(pc: Pc) {
    pc.Reading? || pc.Routing? || pc.Handing? || pc.Queueing? || pc.Notifying? || pc.Finishing? || pc.LastNotify? || pc.Stopped?
  }

  /** A channel's log holds at most one event and decides its buffer and closed flag. */
  predicate ChanOk(c: Chan) {
    if c.log == [] then c.buf == [] && !c.closed
    else
      && |c.log| == 1
      && match c.log[0]
         case Closed => c.closed && c.buf == []
         case Sent(f) =>
           && !c.closed && (c.buf == [] || c.buf == [f])
           && f.id == Some(c.id) && (c.sent == "" || c.sent != f.variant)
  }

  /** `ch` was made for `id` and nothing has happened on it. */
  predicate Unused(chans: seq<Chan>, ch: nat, id: Id) {
    ch < |chans| && chans[ch].log == [] && chans[ch].id == id
  }

  /** A caller is told the cause the table holds, and a reply with its own id. */
  predicate Told(table: Table<nat>, out: Outcome) {
    match out
    case Refused(cause) => table.err == Some(cause)
    case ConnClosed(cause) => table.err == Some(cause)
    case Reply(id, frame) => frame.id == Some(id)
    case _ => true
  }

  predicate Owned(chans: seq<Chan>, ch: nat, id: Id) {
    ch < |chans| && chans[ch].id == id
  }

  /** What a thread at `pc` may rely on. */
  predicate PcOk(table: Table<nat>, chans: seq<Chan>, pc: Pc) {
    match pc
    case Done(out) => Told(table, out)
    case RecvNotifying(out) => out.Received? || out.InboxEnded?
    case Sending(id, ch) => Owned(chans, ch, id)
    case Awaiting(id, ch) => Owned(chans, ch, id)
    case Cancelling(id, ch, why) => Owned(chans, ch, id) && (why.SendError? || why.CtxError?)
    case SawClosed => table.err.Some?
    case Closing(_, rest) => table.err.Some? && forall id <- rest :: Unused(chans, rest[id].ch, id)
    case Handing(f, ch) =>
      && f.id.Some? && Unused(chans, ch, f.id.value)
      && (chans[ch].sent == "" || chans[ch].sent != f.variant)
      && (f.id.value in table.waiters ==> table.waiters[f.id.value].ch != ch)
    case _ => true
  }

  /** The hand-over and a closer never hold the same channel. */
  predicate Apart(p: Pc, q: Pc) {
    p.Handing? && q.Closing? && p.frame.id.Some? && p.frame.id.value in q.rest ==> q.rest[p.frame.id.value].ch != p.ch
  }

  ghost predicate ThreadsInv(table: Table<nat>, chans: seq<Chan>, threads: seq<Pc>) {
    && |threads| > 0
    && (forall t :: 0 <= t < |threads| ==> PcOk(table, chans, threads[t]))
    && (forall t :: 0 < t < |threads| ==> !ReaderPc(threads[t]))
    && (forall t :: 0 < t < |threads| ==> Apart(threads[0], threads[t]))
    && (forall t, u :: 0 <= t < u < |threads| ==> !(threads[t].Closing? && threads[u].Closing?))
  }

  ghost predicate TableInv(table: Table<nat>, chans: seq<Chan>) {
    && (table.err.Some? ==> table.waiters == map[])
    && (forall id <- table.waiters ::
          Unused(chans, table.waiters[id].ch, id) && chans[table.waiters[id].ch].sent == table.waiters[id].sent)
  }

  ghost predicate ChansInv(table: Table<nat>, chans: seq<Chan>) {
    && (forall c :: 0 <= c < |chans| ==> ChanOk(chans[c]))
    && (forall c :: 0 <= c < |chans| && chans[c].closed ==> table.err.Some?)
  }

  ghost predicate Inv(s: State) {
    && ThreadsInv(s.w.table, s.w.chans, s.threads)
    && TableInv(s.w.table, s.w.chans)
    && ChansInv(s.w.table, s.w.chans)
    && !s.w.panicked
    && s.w.table.err == (if s.w.closings == [] then None else Some(s.w.closings[0]))
  }

  lemma InitInv(s: State)
    requires Init(s)
    ensures Inv(s)
  {
  }

  /** Moving one thread to a program point whose assumptions hold. */
  lemma GotoKeeps(table: Table<nat>, chans: seq<Chan>, threads: seq<Pc>, t: nat, pc: Pc)
    requires ThreadsInv(table, chans, threads) && t < |threads|
    requires PcOk(table, chans, pc) && (t != 0 ==> !ReaderPc(pc))
    requires pc.Closing? ==> forall u :: 0 <= u < |threads| && u != t ==> !threads[u].Closing?
    requires pc.Closing? && t != 0 ==> Apart(threads[0], pc)
    requires pc.Handing? ==> forall u :: 0 < u < |threads| ==> Apart(pc, threads[u])
    ensures ThreadsInv(table, chans, threads[t := pc])
  {
  }

  lemma RegisterKeeps(s: State, t: nat, id: Id, sent: string)
    requires Inv(s) && Enabled(s, CallRegister(t, id, sent))
    ensures Inv(Apply(s, CallRegister(t, id, sent)))
  {
    var m := Register(s.w, id, sent);
    if s.w.table.err.None? {
      forall u | 0 <= u < |s.threads| ensures PcOk(m.w.table, m.w.chans, s.threads[u]) {
        assert PcOk(s.w.table, s.w.chans, s.threads[u]);
      }
    }
    GotoKeeps(m.w.table, m.w.chans, s.threads, t, m.pc);
  }

  /** Forgetting an id in the table leaves every thread as it was. */
  lemma DropKeeps(table: Table<nat>, chans: seq<Chan>, threads: seq<Pc>, id: Id)
    requires ThreadsInv(table, chans, threads) && TableInv(table, chans) && ChansInv(table, chans)
    ensures ThreadsInv(Drop(table, id), chans, threads) && TableInv(Drop(table, id), chans) && ChansInv(Drop(table, id), chans)
  {
    forall u | 0 <= u < |threads| ensures PcOk(Drop(table, id), chans, threads[u]) {
      assert PcOk(table, chans, threads[u]);
    }
  }

  lemma CloseRegionKeeps(s: State, t: nat)
    requires Inv(s) && Enabled(s, CloseLocked(t))
    ensures Inv(Apply(s, CloseLocked(t)))
  {
    var m := CloseRegion(s.w, t == 0, s.threads[t].cause);
    if s.w.table.err.Some? {
      GotoKeeps(s.w.table, s.w.chans, s.threads, t, m.pc);
    } else {
      forall u | 0 <= u < |s.threads| ensures PcOk(m.w.table, s.w.chans, s.threads[u]) && !s.threads[u].Closing? {
        assert PcOk(s.w.table, s.w.chans, s.threads[u]);
      }
      assert PcOk(m.w.table, s.w.chans, m.pc);
      assert Apart(s.threads[0], m.pc);
      assert ThreadsInv(m.w.table, s.w.chans, s.threads[t := m.pc]);
    }
  }

  /** An event on a channel nobody else is about to use. */
  lemma EventKeeps(table: Table<nat>, chans: seq<Chan>, threads: seq<Pc>, ch: nat, c: Chan)
    requires ThreadsInv(table, chans, threads) && TableInv(table, chans) && ChansInv(table, chans)
    requires ch < |chans| && c.id == chans[ch].id && c.sent == chans[ch].sent && ChanOk(c)
    requires c.closed ==> table.err.Some?
    requires c.id in table.waiters ==> table.waiters[c.id].ch != ch
    requires forall u :: 0 <= u < |threads| && threads[u].Closing? && c.id in threads[u].rest ==> threads[u].rest[c.id].ch != ch
    requires forall u :: 0 <= u < |threads| && threads[u].Handing? ==> threads[u].ch != ch
    ensures ThreadsInv(table, chans[ch := c], threads) && TableInv(table, chans[ch := c]) && ChansInv(table, chans[ch := c])
  {
    forall u | 0 <= u < |threads| ensures PcOk(table, chans[ch := c], threads[u]) {
      assert PcOk(table, chans, threads[u]);
    }
  }

  lemma CloseOneKeeps(s: State, t: nat, id: Id)
    requires Inv(s) && Enabled(s, CloseOne(t, id))
    ensures Inv(Apply(s, CloseOne(t, id)))
  {
    var pc := s.threads[t];
    assert PcOk(s.w.table, s.w.chans, pc);
    var ch := pc.rest[id].ch;
    assert Unused(s.w.chans, ch, id);
    var pc' := Closing(pc.cause, pc.rest - {id});
    assert t != 0 ==> Apart(s.threads[0], pc);
    GotoKeeps(s.w.table, s.w.chans, s.threads, t, pc');
    var c := s.w.chans[ch];
    EventKeeps(s.w.table, s.w.chans, s.threads[t := pc'], ch, c.(closed := true, log := c.log + [Closed]));
  }

  lemma HandOverKeeps(s: State)
    requires Inv(s) && Enabled(s, HandOver)
    ensures Inv(Apply(s, HandOver))
  {
    var pc := s.threads[0];
    assert PcOk(s.w.table, s.w.chans, pc);
    GotoKeeps(s.w.table, s.w.chans, s.threads, 0, Reading);
    var c := s.w.chans[pc.ch];
    assert ChanOk(c);
    var c' := c.(buf := c.buf + [pc.frame], log := c.log + [Sent(pc.frame)]);
    assert c'.log == [Sent(pc.frame)] && c'.buf == [pc.frame];
    forall u | 0 <= u < |s.threads| && s.threads[u].Closing? && c.id in s.threads[u].rest
      ensures s.threads[u].rest[c.id].ch != pc.ch
    {
      assert Apart(s.threads[0], s.threads[u]);
    }
    EventKeeps(s.w.table, s.w.chans, s.threads[0 := Reading], pc.ch, c');
  }

  lemma RouteKeeps(s: State)
    requires Inv(s) && Enabled(s, RouteLocked)
    ensures Inv(Apply(s, RouteLocked))
  {
    var f := s.threads[0].frame;
    var m := RouteRegion(s.w, f);
    if m.pc.Handing? {
      DropKeeps(s.w.table, s.w.chans, s.threads, f.id.value);
      forall u | 0 < u < |s.threads| ensures Apart(m.pc, s.threads[u]) {
        assert PcOk(s.w.table, s.w.chans, s.threads[u]);
      }
    }
    GotoKeeps(m.w.table, s.w.chans, s.threads, 0, m.pc);
  }

  lemma TakeReplyKeeps(s: State, t: nat)
    requires Inv(s) && Enabled(s, TakeReply(t))
    ensures Inv(Apply(s, TakeReply(t)))
  {
    var pc := s.threads[t];
    assert PcOk(s.w.table, s.w.chans, pc);
    var c := s.w.chans[pc.ch];
    assert ChanOk(c) && c.log == [Sent(c.buf[0])];
    var pc' := Done(Reply(pc.id, c.buf[0]));
    GotoKeeps(s.w.table, s.w.chans, s.threads, t, pc');
    EventKeeps(s.w.table, s.w.chans, s.threads[t := pc'], pc.ch, c.(buf := c.buf[1..]));
  }

  lemma CancelKeeps(s: State, t: nat)
    requires Inv(s) && Enabled(s, CancelWaiter(t))
    ensures Inv(Apply(s, CancelWaiter(t)))
  {
    var pc := s.threads[t];
    assert PcOk(s.w.table, s.w.chans, pc);
    DropKeeps(s.w.table, s.w.chans, s.threads, pc.id);
    GotoKeeps(Drop(s.w.table, pc.id), s.w.chans, s.threads, t, Done(pc.why));
  }

  /** Steps that touch neither the table nor a channel. */
  predicate Plain(step: Step) {
    !(step.CallRegister? || step.CloseLocked? || step.CloseOne? || step.HandOver? || step.RouteLocked? || step.TakeReply? || step.CancelWaiter?)
  }

  lemma PlainMove(w: World, pc: Pc, step: Step)
    requires Ready(w, pc, step) && Plain(step) && PcOk(w.table, w.chans, pc)
    requires forall c :: 0 <= c < |w.chans| && w.chans[c].closed ==> w.table.err.Some?
    ensures
      var m := Act(w, pc, step);
      && m.w.table == w.table && m.w.chans == w.chans && m.w.panicked == w.panicked && m.w.closings == w.closings
      && PcOk(w.table, w.chans, m.pc) && !m.pc.Closing? && !m.pc.Handing?
      && (ReaderPc(m.pc) ==> ReaderPc(pc) || Actor(step) == 0)
  {
  }

  lemma StepInv(s: State, step: Step)
    requires Inv(s) && Enabled(s, step)
    ensures Inv(Apply(s, step))
  {
    if step.CallRegister? {
      RegisterKeeps(s, step.t, step.id, step.sent);
    } else if step.CloseLocked? {
      CloseRegionKeeps(s, step.t);
    } else if step.CloseOne? {
      CloseOneKeeps(s, step.t, step.id);
    } else if step.HandOver? {
      HandOverKeeps(s);
    } else if step.RouteLocked? {
      RouteKeeps(s);
    } else if step.TakeReply? {
      TakeReplyKeeps(s, step.t);
    } else if step.CancelWaiter? {
      CancelKeeps(s, step.t);
    } else {
      var t := Actor(step);
      PlainMove(s.w, s.threads[t], step);
      GotoKeeps(s.w.table, s.w.chans, s.threads, t, Act(s.w, s.threads[t], step).pc);
    }
  }

  /** Every state a run from an initial state reaches satisfies the invariant. */
  lemma {:induction false} RunInv(s: State, steps: seq<Step>, s': State)
    requires Inv(s) && Runs(s, steps, s')
    ensures Inv(s')
    decreases |steps|
  {
    if steps != [] {
      StepInv(s, steps[0]);
      RunInv(Apply(s, steps[0]), steps[1..], s');
    }
  }

  /** In every interleaving: no send or close ever hits a closed channel, each
      reply channel sees at most one event, the read loop's hand-over never
      blocks, and every channel a closer still has to close is open. */
  lemma ChannelSafety(s0: State, steps: seq<Step>, s: State)
    requires Init(s0) && Runs(s0, steps, s)
    ensures !s.w.panicked && |s.threads| > 0
    ensures forall c :: 0 <= c < |s.w.chans| ==> |s.w.chans[c].log| <= 1 && |s.w.chans[c].buf| <= 1
    ensures s.threads[0].Handing? ==> Enabled(s, HandOver) && !s.w.chans[s.threads[0].ch].closed
    ensures forall t, id :: 0 <= t < |s.threads| && s.threads[t].Closing? && id in s.threads[t].rest
              ==> Enabled(s, CloseOne(t, id)) && !s.w.chans[s.threads[t].rest[id].ch].closed
  {
    InitInv(s0);
    RunInv(s0, steps, s);
    ChannelsHoldOne(s);
    if s.threads[0].Handing? {
      ReaderCanHand(s);
    }
    forall t, id | 0 <= t < |s.threads| && s.threads[t].Closing? && id in s.threads[t].rest
      ensures Enabled(s, CloseOne(t, id)) && !s.w.chans[s.threads[t].rest[id].ch].closed
    {
      CloserCanClose(s, t, id);
    }
  }

  lemma ChannelsHoldOne(s: State)
    requires Inv(s)
    ensures !s.w.panicked && |s.threads| > 0
    ensures forall c :: 0 <= c < |s.w.chans| ==> |s.w.chans[c].log| <= 1 && |s.w.chans[c].buf| <= 1
  {
    forall c | 0 <= c < |s.w.chans| ensures |s.w.chans[c].log| <= 1 && |s.w.chans[c].buf| <= 1 {
      assert ChanOk(s.w.chans[c]);
    }
  }

  lemma ReaderCanHand(s: State)
    requires Inv(s) && |s.threads| > 0 && s.threads[0].Handing?
    ensures s.threads[0].ch < |s.w.chans|
    ensures Enabled(s, HandOver) && !s.w.chans[s.threads[0].ch].closed
  {
    assert PcOk(s.w.table, s.w.chans, s.threads[0]);
    assert ChanOk(s.w.chans[s.threads[0].ch]);
  }

  lemma CloserCanClose(s: State, t: nat, id: Id)
    requires Inv(s) && t < |s.threads| && s.threads[t].Closing? && id in s.threads[t].rest
    ensures s.threads[t].rest[id].ch < |s.w.chans|
    ensures Enabled(s, CloseOne(t, id)) && !s.w.chans[s.threads[t].rest[id].ch].closed
  {
    assert PcOk(s.w.table, s.w.chans, s.threads[t]);
    assert ChanOk(s.w.chans[s.threads[t].rest[id].ch]);
  }

  lemma {:induction false} ErrorStays(s: State, steps: seq<Step>, s': State)
    requires Runs(s, steps, s') && s.w.table.err.Some?
    ensures s'.w.table.err == s.w.table.err
    decreases |steps|
  {
    if steps != [] {
      ErrorStays(Apply(s, steps[0]), steps[1..], s');
    }
  }

  /** Closing is sticky and keeps the first cause: once the table is closed it
      stays closed with that cause over every continuation, the cause is the one
      passed to the first closeAll, and it is the cause every refused or cut-off
      call reports. */
  lemma ClosingIsSticky(s0: State, steps: seq<Step>, s: State, more: seq<Step>, s': State)
    requires Init(s0) && Runs(s0, steps, s) && Runs(s, more, s')
    ensures s.w.table.err.Some? ==> s'.w.table.err == s.w.table.err && s.w.table.waiters == map[]
    ensures s.w.table.err == (if s.w.closings == [] then None else Some(s.w.closings[0]))
    ensures forall t :: 0 <= t < |s.threads| && s.threads[t].Done? && (s.threads[t].out.Refused? || s.threads[t].out.ConnClosed?)
              ==> s.w.closings != [] && s.threads[t].out.cause == s.w.closings[0]
  {
    InitInv(s0);
    RunInv(s0, steps, s);
    if s.w.table.err.Some? {
      ErrorStays(s, more, s');
    }
    forall t | 0 <= t < |s.threads| && s.threads[t].Done? ensures Told(s.w.table, s.threads[t].out) {
      assert PcOk(s.w.table, s.w.chans, s.threads[t]);
    }
  }
}
