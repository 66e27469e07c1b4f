/**
 The correlation table behind a generated WebSocket call: which ids have a
 caller waiting, on which channel, and whether the table has been closed.
 `PendingMap` is the runtime object; its lock regions are the table functions,
 which the transition system in CallProtocol shares.
 */
module PendingTable {

  import opened Wrappers

  type Id = nat
  type Cause = nat

  /** One in-flight call: its reply channel and the variant tag of the frame it sent. */
  datatype Waiter<C> = Waiter(ch: C, sent: string)

  datatype Table<C> = Table(waiters: map<Id, Waiter<C>>, err: Option<Cause>)

  function EmptyTable<C>(): Table<C> {
    Table(map[], None)
  }

  function Add<C>(t: Table<C>, id: Id, w: Waiter<C>): Table<C> {
    t.(waiters := t.waiters[id := w])
  }

  function Drop<C>(t: Table<C>, id: Id): Table<C> {
    t.(waiters := t.waiters - {id})
  }

  function Shut<C>(t: Table<C>, cause: Cause): Table<C> {
    Table(map[], Some(cause))
  }

  /** A frame is a reply only to a waiting id, and never when it carries the
      very variant that call sent. */
  predicate CanResolve<C>(t: Table<C>, id: Id, variant: string) {
    && id in t.waiters
    && !(t.waiters[id].sent != "" && t.waiters[id].sent == variant)
  }
}
