/**
 The pending map as the object the Go runtime keeps, each method proved against
 the table function CallProtocol steps by, and the Rust twin, whose closed state
 is the map being gone.
 */
module PendingMap {

  import opened Wrappers
  import opened PendingTable

  /** A Go channel of capacity one. */
  class ReplyChan<T> {
    var buf: seq<T>
    var closed: bool

    constructor ()
      ensures buf == [] && !closed
    {
      buf, closed := [], false;
    }

    method Send(value: T)
      requires !closed && |buf| < 1
      modifies this
      ensures buf == [value] && !closed
    {
      buf := buf + [value];
    }

    method Close()
      requires !closed
      modifies this
      ensures closed && buf == old(buf)
    {
      closed := true;
    }
  }

  class PendingMap<T> {
    var waiters: map<Id, Waiter<ReplyChan<T>>>
    var err: Option<Cause>

    ghost function View(): Table<ReplyChan<T>>
      reads this
    {
      Table(waiters, err)
    }

    ghost function Chans(): set<object>
      reads this
    {
      set id | id in waiters :: waiters[id].ch
    }

    /** Waiters own distinct, open, empty channels; a closed map has none. */
    ghost predicate Valid()
      reads this, Chans()
    {
      && (forall id <- waiters :: waiters[id].ch.buf == [] && !waiters[id].ch.closed)
      && (forall i, j :: i in waiters && j in waiters && i != j ==> waiters[i].ch != waiters[j].ch)
      && (err.Some? ==> waiters == map[])
    }

    constructor ()
      ensures Valid() && View() == EmptyTable()
    {
      waiters, err := map[], None;
    }

    method Register(id: Id, sent: string) returns (r: Result<ReplyChan<T>, Cause>)
      requires Valid()
      modifies this
      ensures Valid()
      ensures old(err).Some? ==> r == Err(old(err).value) && View() == old(View())
      ensures old(err).None? ==> r.Ok? && fresh(r.value) && View() == Add(old(View()), id, Waiter(r.value, sent))
    {
      if err.Some? {
        return Err(err.value);
      }
      var ch := new ReplyChan<T>();
      waiters := waiters[id := Waiter(ch, sent)];
      r := Ok(ch);
    }

    /** Delivers `value` exactly when a call waits on `id` and did not itself send
        this variant; that call's channel gets it and no other channel changes. */
    method Resolve(id: Id, variant: string, value: T) returns (ok: bool)
      requires Valid()
      modifies this, Chans()
      ensures Valid() && ok == CanResolve(old(View()), id, variant)
      ensures !ok ==> View() == old(View())
      ensures ok ==> View() == Drop(old(View()), id) && old(waiters[id].ch).buf == [value] && !old(waiters[id].ch).closed
      ensures forall c: ReplyChan<T> :: c in old(Chans()) && !(ok && c == old(waiters)[id].ch) ==> unchanged(c)
    {
      ok := id in waiters;
      if ok && waiters[id].sent != "" && waiters[id].sent == variant {
        ok := false;
      }
      if ok {
        var ch := waiters[id].ch;
        waiters := waiters - {id};
        ch.Send(value);
      }
    }

    method Cancel(id: Id)
      requires Valid()
      modifies this
      ensures Valid() && View() == Drop(old(View()), id)
    {
      waiters := waiters - {id};
    }

    /** Closes every in-flight channel, once: a later call changes nothing. */
    method CloseAll(cause: Cause)
      requires Valid()
      modifies this, Chans()
      ensures Valid()
      ensures old(err).Some? ==> View() == old(View())
      ensures old(err).None? ==> View() == Shut(old(View()), cause)
      ensures forall id <- old(waiters) :: old(waiters)[id].ch.closed && old(waiters)[id].ch.buf == []
    {
      if err.Some? {
        return;
      }
      err := Some(cause);
      var rest := waiters;
      waiters := map[];
      while rest != map[]
        invariant rest.Keys <= old(waiters).Keys && forall id <- rest :: rest[id] == old(waiters)[id]
        invariant forall id <- old(waiters) :: old(waiters)[id].ch.buf == []
        invariant forall id <- old(waiters) :: old(waiters)[id].ch.closed <==> id !in rest
        invariant View() == Shut(old(View()), cause)
        modifies old(Chans())
        decreases rest.Keys
      {
        var id :| id in rest;
        rest[id].ch.Close();
        rest := rest - {id};
      }
    }
  }

  // ---- the Rust twin ------------------------------------------------------

  /** `Mutex<Option<HashMap<..>>>`: None once closed. */
  type RustTable<C> = Option<map<Id, Waiter<C>>>

  function RustRegister<C>(t: RustTable<C>, id: Id, w: Waiter<C>): (RustTable<C>, bool) {
    match t
    case None => (None, false)
    case Some(waiters) => (Some(waiters[id := w]), true)
  }

  /** The channel the value is sent on, or None when it is handed back. */
  function RustResolve<C>(t: RustTable<C>, id: Id, variant: string): (RustTable<C>, Option<C>) {
    match t
    case None => (t, None)
    case Some(waiters) =>
      if id in waiters && (waiters[id].sent == "" || waiters[id].sent != variant)
      then (Some(waiters - {id}), Some(waiters[id].ch))
      else (t, None)
  }

  function RustCancel<C>(t: RustTable<C>, id: Id): RustTable<C> {
    match t
    case None => None
    case Some(waiters) => Some(waiters - {id})
  }

  /** A Go table seen as a Rust one: the cause is forgotten. */
  function Forget<C>(t: Table<C>): RustTable<C> {
    if t.err.Some? then None else Some(t.waiters)
  }

  /** The two runtimes take the same decisions: on every table the Go runtime can
      hold, each Rust operation is the Go one with the close cause forgotten, and
      `resolve` delivers the same frames to the same waiters. */
  lemma RustTwinAgrees<C>(t: Table<C>, id: Id, w: Waiter<C>, variant: string, cause: Cause)
    requires t.err.Some? ==> t.waiters == map[]
    ensures RustRegister(Forget(t), id, w) == (if t.err.Some? then (Forget(t), false) else (Forget(Add(t, id, w)), true))
    ensures RustResolve(Forget(t), id, variant)
         == (if CanResolve(t, id, variant) then (Forget(Drop(t, id)), Some(t.waiters[id].ch)) else (Forget(t), None))
    ensures RustCancel(Forget(t), id) == Forget(Drop(t, id))
    ensures Forget(Shut(t, cause)) == None
  {
  }
}
