/**
 Dead-peer detection. The server keeps one flag and drops the connection on a
 tick that finds the last ping unanswered. The client's reader and its ticker
 are separate tasks sharing one atomic flag, so a message can arrive in the
 middle of a tick; it still drops on exactly the same evidence.
 */
module PingDetector {

  /** What the server's loop selects on. */
  datatype Event = Inbound | Tick

  /** A tick on the client is two steps: swapping the shared flag out, and acting
      on what was found. */
  datatype Step = Arrive | Swap | Decide

  /** Two consecutive ticks with no message between them. */
  ghost predicate Silent(events: seq<Event>) {
    exists i {:trigger events[i]} :: 0 <= i < |events| - 1 && events[i] == Tick && events[i + 1] == Tick
  }

  lemma SilentMore(events: seq<Event>, e: Event)
    ensures Silent(events + [e]) <==> Silent(events) || (e == Tick && events != [] && events[|events| - 1] == Tick)
  {
    var more := events + [e];
    if Silent(events) {
      var i :| 0 <= i < |events| - 1 && events[i] == Tick && events[i + 1] == Tick;
      assert more[i] == Tick && more[i + 1] == Tick;
    } else if e == Tick && events != [] && events[|events| - 1] == Tick {
      assert more[|events| - 1] == Tick && more[|events|] == Tick;
    } else {
      forall i {:trigger more[i]} | 0 <= i < |more| - 1
        ensures more[i] != Tick || more[i + 1] != Tick
      {
        assert i < |events| - 1 ==> more[i] == events[i] && more[i + 1] == events[i + 1];
      }
    }
  }

  /** Once there is silence there is silence. */
  lemma SilentPrefix(events: seq<Event>, n: nat)
    requires n <= |events| && Silent(events[..n])
    ensures Silent(events)
  {
    var i :| 0 <= i < n - 1 && events[..n][i] == Tick && events[..n][i + 1] == Tick;
    assert events[i] == Tick && events[i + 1] == Tick;
  }

  /** The server's read loop, as far as its detector goes. */
  method ServerReadLoop(events: seq<Event>) returns (dropped: bool)
    ensures dropped <==> Silent(events)
  {
    var awaitingPong := false;
    for i := 0 to |events|
      invariant !Silent(events[..i])
      invariant awaitingPong <==> i > 0 && events[i - 1] == Tick
    {
      assert events[..i + 1] == events[..i] + [events[i]];
      SilentMore(events[..i], events[i]);
      if events[i] == Tick {
        if awaitingPong {
          SilentPrefix(events, i + 1);
          return true;
        }
        awaitingPong := true;
      } else {
        awaitingPong := false;
      }
    }
    assert events[..|events|] == events;
    return false;
  }

  // ---- the client ---------------------------------------------------------

  /** The ticker alternates its two steps, and is not cut off between them. */
  predicate Alternates(steps: seq<Step>, swapped: bool) {
    if steps == [] then !swapped
    else
      match steps[0]
      case Arrive => Alternates(steps[1..], swapped)
      case Swap => !swapped && Alternates(steps[1..], true)
      case Decide => swapped && Alternates(steps[1..], false)
  }

  /** A tick happens when the flag is swapped. */
  function Observed(steps: seq<Step>): seq<Event> {
    if steps == [] then []
    else
      (match steps[0]
       case Arrive => [Inbound]
       case Swap => [Tick]
       case Decide => [])
      + Observed(steps[1..])
  }

  lemma {:induction false} ObservedMore(steps: seq<Step>, s: Step)
    ensures Observed(steps + [s]) == Observed(steps) + Observed([s])
  {
    if steps == [] {
      assert steps + [s] == [s] && [] + Observed([s]) == Observed([s]);
    } else {
      assert (steps + [s])[0] == steps[0] && (steps + [s])[1..] == steps[1..] + [s];
      ObservedMore(steps[1..], s);
    }
  }

  lemma {:induction false} ObservedPrefix(steps: seq<Step>, n: nat)
    requires n <= |steps|
    ensures Observed(steps[..n]) <= Observed(steps)
    decreases |steps| - n
  {
    if n == |steps| {
      assert steps[..n] == steps;
    } else {
      assert steps[..n + 1] == steps[..n] + [steps[n]];
      ObservedMore(steps[..n], steps[n]);
      ObservedPrefix(steps, n + 1);
    }
  }

  class Client {
    var seen: bool            // shared: set by the reader, swapped by the ticker
    var awaitingPong: bool    // the ticker's own
    var closed: bool

    constructor ()
      ensures !seen && !awaitingPong && !closed
    {
      seen, awaitingPong, closed := false, false, false;
    }

    method Receive()
      modifies `seen
      ensures seen
    {
      seen := true;
    }

    method SwapSeen() returns (was: bool)
      modifies `seen
      ensures was == old(seen) && !seen
    {
      was := seen;
      seen := false;
    }

    method Act(wasSeen: bool)
      modifies `awaitingPong, `closed
      ensures closed == (old(closed) || (old(awaitingPong) && !wasSeen))
      ensures closed || awaitingPong
    {
      if wasSeen {
        awaitingPong := false;
      }
      if awaitingPong {
        closed := true;
        return;
      }
      awaitingPong := true;
    }
  }

  ghost predicate LastIsTick(events: seq<Event>) {
    events != [] && events[|events| - 1] == Tick
  }

  /** Only messages from position `from` on. */
  ghost predicate Quiet(events: seq<Event>, from: nat) {
    forall i :: from <= i < |events| ==> events[i] == Inbound
  }

  /** What the client's flags say about the events so far. Between a swap and its
      decision, `past` is what came before the swap. */
  ghost predicate FlagsOk(events: seq<Event>, past: seq<Event>, swapped: bool, wasSeen: bool, seen: bool, awaiting: bool) {
    if swapped then
      && !Silent(past) && past + [Tick] <= events && Quiet(events, |past| + 1)
      && (|events| == |past| + 1 <==> !seen) && (LastIsTick(past) <==> awaiting && !wasSeen)
    else !Silent(events) && (LastIsTick(events) <==> awaiting && !seen)
  }

  lemma OnArrive(events: seq<Event>, past: seq<Event>, swapped: bool, wasSeen: bool, seen: bool, awaiting: bool)
    requires FlagsOk(events, past, swapped, wasSeen, seen, awaiting)
    ensures FlagsOk(events + [Inbound], past, swapped, wasSeen, true, awaiting)
  {
    SilentMore(events, Inbound);
  }

  lemma OnDecide(events: seq<Event>, past: seq<Event>, wasSeen: bool, seen: bool, awaiting: bool)
    requires FlagsOk(events, past, true, wasSeen, seen, awaiting)
    ensures awaiting && !wasSeen ==> Silent(events)
    ensures !(awaiting && !wasSeen) ==> FlagsOk(events, past, false, wasSeen, seen, true)
  {
    Settled(past, events);
  }

  /** Reader and ticker interleaved: the connection is dropped exactly when the
      server's detector would drop it on the same ticks and messages. */
  method RunClient(steps: seq<Step>) returns (dropped: bool)
    requires Alternates(steps, false)
    ensures dropped <==> Silent(Observed(steps))
  {
    var client := new Client();
    var swapped, wasSeen := false, false;
    ghost var events: seq<Event>, past: seq<Event> := [], [];
    assert steps[0..] == steps && steps[..0] == [];
    for i := 0 to |steps|
      invariant Alternates(steps[i..], swapped) && !client.closed && fresh(client) && events == Observed(steps[..i])
      invariant FlagsOk(events, past, swapped, wasSeen, client.seen, client.awaitingPong)
    {
      NextStep(steps, i, swapped);
      match steps[i]
      case Arrive =>
        OnArrive(events, past, swapped, wasSeen, client.seen, client.awaitingPong);
        events := events + [Inbound];
        client.Receive();
      case Swap =>
        past, events := events, events + [Tick];
        wasSeen := client.SwapSeen();
        swapped := true;
      case Decide =>
        OnDecide(events, past, wasSeen, client.seen, client.awaitingPong);
        client.Act(wasSeen);
        swapped := false;
        if client.closed {
          DropStays(steps, i, events);
          return true;
        }
    }
    assert steps[..|steps|] == steps;
    return false;
  }

  lemma NextStep(steps: seq<Step>, i: nat, swapped: bool)
    requires i < |steps| && Alternates(steps[i..], swapped)
    ensures
      match steps[i]
      case Arrive => Alternates(steps[i + 1..], swapped) && Observed(steps[..i + 1]) == Observed(steps[..i]) + [Inbound]
      case Swap => !swapped && Alternates(steps[i + 1..], true) && Observed(steps[..i + 1]) == Observed(steps[..i]) + [Tick]
      case Decide => swapped && Alternates(steps[i + 1..], false) && Observed(steps[..i + 1]) == Observed(steps[..i])
  {
    assert steps[i..][0] == steps[i] && steps[i..][1..] == steps[i + 1..];
    assert steps[..i + 1] == steps[..i] + [steps[i]];
    ObservedMore(steps[..i], steps[i]);
    assert [steps[i]][1..] == [];
  }

  lemma DropStays(steps: seq<Step>, i: nat, events: seq<Event>)
    requires i < |steps| && events == Observed(steps[..i]) && Silent(events)
    ensures Silent(Observed(steps))
  {
    ObservedPrefix(steps, i);
    assert Observed(steps)[..|events|] == events;
    SilentPrefix(Observed(steps), |events|);
  }

  /** What a decision knows: a tick, then only messages. */
  lemma Settled(past: seq<Event>, now: seq<Event>)
    requires past + [Tick] <= now && !Silent(past) && Quiet(now, |past| + 1)
    ensures Silent(now) <==> LastIsTick(past)
    ensures LastIsTick(now) <==> |now| == |past| + 1
  {
    SilentMore(past, Tick);
    assert now[|past|] == Tick;
    if Silent(now) {
      var i :| 0 <= i < |now| - 1 && now[i] == Tick && now[i + 1] == Tick;
      assert (past + [Tick])[i] == Tick && (past + [Tick])[i + 1] == Tick;
    }
    if LastIsTick(past) {
      SilentPrefix(now, |past| + 1);
    }
  }

  /** The two detectors side by side: for every interleaving on the client, and the
      server fed the same ticks and messages, one drops exactly when the other does. */
  method DetectorsAgree(steps: seq<Step>) returns (client: bool, server: bool)
    requires Alternates(steps, false)
    ensures client == server
    ensures client <==> Silent(Observed(steps))
  {
    client := RunClient(steps);
    server := ServerReadLoop(Observed(steps));
  }
}
