/**
 The generated Go join: it writes the segments into a freshly decoded message, in
 place. A decoded message is a tree, each part of it in memory of its own; joining
 keeps it one and changes nothing outside it.
 */
module RawJoin {

  import opened Wrappers
  import opened RawFrame
  import opened RawPlan
  import opened RawSplit
  import opened RawHeap

  // ---- trees in memory ----------------------------------------------------

  /** Which objects a message is made of, and which of them each field is made of. */
  datatype Foot = Foot(all: set<object>, parts: map<string, Part>)

  datatype Part = Part(all: set<object>, children: seq<Foot>)

  ghost predicate Owns(p: Node?, c: Child, f: Foot)
    reads f.all
    decreases c
  {
    match c
    case Nil => p == null
    case Child(v) => p != null && p in f.all && OwnsVal(p, v, f)
  }

  ghost predicate Separate(f: Foot) {
    forall k, l :: k in f.parts && l in f.parts && k != l ==> f.parts[k].all !! f.parts[l].all
  }

  ghost predicate OwnsVal(p: Node, v: Val, f: Foot)
    requires p in f.all
    reads f.all
    decreases v
  {
    && p.fields.Keys == v.fields.Keys == f.parts.Keys && Separate(f)
    && forall k <- v.fields :: f.parts[k].all <= f.all - {p} && SlotOwns(p.fields[k], v.fields[k], f.parts[k])
  }

  ghost predicate SlotOwns(slot: Slot, x: FieldVal, f: Part)
    reads f.all
    decreases x
  {
    match x
    case Data(bytes) => slot == SData(bytes)
    case One(c) => slot.SOne? && |f.children| == 1 && f.children[0].all <= f.all && Owns(slot.p, c, f.children[0])
    case NilList => slot.SNilList?
    case Many(items) => slot.SMany? && ItemsOwn(slot.items, items, f)
    case Choice(None) => slot == SChoice(null)
    case Choice(Some(p)) =>
      slot.SChoice? && slot.picked != null && slot.picked in f.all
      && slot.picked.name == p.name && slot.picked.tag == p.tag
      && |f.children| == 1 && f.children[0].all <= f.all - {slot.picked} && Owns(slot.picked.child, p.child, f.children[0])
    case Other(text) => slot == SOther(text)
  }

  ghost predicate ItemsOwn(ps: seq<Node?>, items: seq<Child>, f: Part)
    reads f.all
    decreases items
  {
    && |ps| == |items| == |f.children|
    && (forall i, j :: 0 <= i < j < |f.children| ==> f.children[i].all !! f.children[j].all)
    && forall i :: 0 <= i < |items| ==> f.children[i].all <= f.all && Owns(ps[i], items[i], f.children[i])
  }

  // ---- the generated join -------------------------------------------------

  /** `wsJoinRaw`: fills the raw fields of `m` in, and returns the segments left. */
  method JoinRaw(plan: Plan, name: Msg, m: Node?, segments: seq<Bytes>, ghost c: Child, ghost f: Foot)
    returns (ok: bool, rest: seq<Bytes>)
    requires PlanOk(plan) && Owns(m, c, f)
    modifies f.all
    ensures ok <==> JoinChild(plan, name, c, segments).Some?
    ensures ok ==> rest == JoinChild(plan, name, c, segments).value.1 && Owns(m, JoinChild(plan, name, c, segments).value.0, f)
    decreases c, 1
  {
    if m == null {
      return true, segments;
    }
    ok, rest := JoinFields(plan, name, m, segments, c.val, f);
  }

  method JoinFields(plan: Plan, name: Msg, m: Node, segments: seq<Bytes>, ghost v: Val, ghost f: Foot)
    returns (ok: bool, rest: seq<Bytes>)
    requires PlanOk(plan) && m in f.all && OwnsVal(m, v, f)
    modifies f.all
    ensures ok <==> Join(plan, name, v, segments).Some?
    ensures ok ==> rest == Join(plan, name, v, segments).value.1 && OwnsVal(m, Join(plan, name, v, segments).value.0, f)
    decreases v, 1
  {
    var steps := Steps(plan, name);
    ghost var acc := v.fields;
    rest := segments;
    assert steps[0..] == steps && Val(v.fields) == v;
    for i := 0 to |steps|
      invariant OwnsVal(m, Val(acc), f) && JoinedSoFar(steps, i, v, acc)
      invariant Join(plan, name, v, segments) == JoinSteps(plan, steps[i..], v, acc, rest)
    {
      assert steps[i..][0] == steps[i] && steps[i..][1..] == steps[i + 1..];
      var st := steps[i];
      JoinedNext(plan, steps, i, v, acc, rest);
      if st.field in m.fields {
        SlotAppliesIs(st, m.fields[st.field], acc[st.field], f.parts[st.field]);
        if SlotApplies(st, m.fields[st.field]) {
          ghost var x := acc[st.field];
          ghost var r := JoinField(plan, st, x, rest);
          ok, rest := JoinStep(plan, st, m, rest, acc, v, f);
          if !ok {
            return;
          }
          acc := acc[st.field := r.value.0];
        }
      }
    }
    assert steps[|steps|..] == [];
    ok := true;
  }

  /** Fields no step has acted on are as they were; the others have kept their kind. */
  ghost predicate JoinedSoFar(steps: seq<Step>, i: nat, v: Val, acc: map<string, FieldVal>)
    requires i <= |steps|
  {
    && acc.Keys == v.fields.Keys
    && (forall k <- acc :: (acc[k] == v.fields[k]) || exists j :: 0 <= j < i && steps[j].field == k && Applies(steps[j], v.fields[k]))
    && (forall k, t: Step {:trigger Applies(t, acc[k])} :: k in acc ==> (Applies(t, acc[k]) <==> Applies(t, v.fields[k])))
  }

  lemma JoinedNext(plan: Plan, steps: seq<Step>, i: nat, v: Val, acc: map<string, FieldVal>, raw: seq<Bytes>)
    requires StepsOk(steps) && i < |steps| && JoinedSoFar(steps, i, v, acc)
    ensures
      var st := steps[i];
      && (st.field in acc ==> (Applies(st, acc[st.field]) <==> Acts(st, v)))
      && (Acts(st, v) ==> acc[st.field] == v.fields[st.field])
      && (!Acts(st, v) ==> JoinedSoFar(steps, i + 1, v, acc))
      && (Acts(st, v) && JoinField(plan, st, v.fields[st.field], raw).Some?
          ==> JoinedSoFar(steps, i + 1, v, acc[st.field := JoinField(plan, st, v.fields[st.field], raw).value.0]))
  {
    var st := steps[i];
    if Acts(st, v) {
      var x := v.fields[st.field];
      forall j | 0 <= j < i && steps[j].field == st.field
        ensures !Applies(steps[j], x)
      {
        assert Exclusive(steps[j].act, st.act);
      }
      var r := JoinField(plan, st, x, raw);
      if r.Some? {
        forall t: Step
          ensures Applies(t, r.value.0) <==> Applies(t, x)
        {
        }
      }
    }
  }

  lemma SlotAppliesIs(st: Step, slot: Slot, x: FieldVal, f: Part)
    requires SlotOwns(slot, x, f)
    ensures SlotApplies(st, slot) <==> Applies(st, x)
  {
  }

  /** One field: the memory of the others is not touched. */
  method JoinStep(plan: Plan, st: Step, m: Node, segments: seq<Bytes>, ghost acc: map<string, FieldVal>, ghost v: Val, ghost f: Foot)
    returns (ok: bool, rest: seq<Bytes>)
    requires PlanOk(plan) && m in f.all && OwnsVal(m, Val(acc), f)
    requires st.field in acc && st.field in v.fields && acc[st.field] == v.fields[st.field] && Applies(st, acc[st.field])
    modifies f.all
    ensures ok <==> JoinField(plan, st, acc[st.field], segments).Some?
    ensures ok ==>
              var r := JoinField(plan, st, acc[st.field], segments).value;
              rest == r.1 && OwnsVal(m, Val(acc[st.field := r.0]), f)
    decreases v, 0
  {
    ghost var part := f.parts[st.field];
    ghost var x := acc[st.field];
    assert SlotOwns(m.fields[st.field], x, part) && part.all <= f.all - {m};
    var slot;
    ok, slot, rest := JoinSlot(plan, st, m.fields[st.field], segments, x, part);
    if !ok {
      return;
    }
    assert forall k <- acc :: k != st.field ==> SlotOwns(m.fields[k], acc[k], f.parts[k]);
    StoreSlot(m, st.field, slot, acc, JoinField(plan, st, x, segments).value.0, f);
  }

  method StoreSlot(m: Node, field: string, slot: Slot, ghost acc: map<string, FieldVal>, ghost x: FieldVal, ghost f: Foot)
    requires m in f.all && m.fields.Keys == acc.Keys == f.parts.Keys && Separate(f) && field in acc
    requires forall k <- acc :: f.parts[k].all <= f.all - {m}
    requires forall k <- acc :: k != field ==> SlotOwns(m.fields[k], acc[k], f.parts[k])
    requires SlotOwns(slot, x, f.parts[field])
    modifies m
    ensures OwnsVal(m, Val(acc[field := x]), f)
  {
    m.fields := m.fields[field := slot];
  }

  method JoinSlot(plan: Plan, st: Step, slot: Slot, segments: seq<Bytes>, ghost x: FieldVal, ghost f: Part)
    returns (ok: bool, r: Slot, rest: seq<Bytes>)
    requires PlanOk(plan) && SlotOwns(slot, x, f) && Applies(st, x)
    modifies f.all
    ensures ok <==> JoinField(plan, st, x, segments).Some?
    ensures ok ==>
              rest == JoinField(plan, st, x, segments).value.1 && SlotOwns(r, JoinField(plan, st, x, segments).value.0, f)
    decreases x
  {
    r, rest := slot, segments;
    match st.act
    case Take =>
      if |segments| == 0 {
        return false, r, rest;
      }
      ok, r, rest := true, SData(segments[0]), segments[1..];
    case Into(child) => ok, rest := JoinRaw(plan, child, slot.p, segments, x.child, f.children[0]);
    case Each(child) => ok, rest := JoinList(plan, child, slot.items, segments, x.items, f);
    case Case(_, _, child) => ok, rest := JoinRaw(plan, child, slot.picked.child, segments, x.picked.value.child, f.children[0]);
  }

  method JoinList(plan: Plan, name: Msg, ps: seq<Node?>, segments: seq<Bytes>, ghost items: seq<Child>, ghost f: Part)
    returns (ok: bool, rest: seq<Bytes>)
    requires PlanOk(plan) && ItemsOwn(ps, items, f)
    modifies f.all
    ensures ok <==> JoinItems(plan, name, items, segments).Some?
    ensures ok ==>
              rest == JoinItems(plan, name, items, segments).value.1 && ItemsOwn(ps, JoinItems(plan, name, items, segments).value.0, f)
    decreases items
  {
    ghost var now := items;
    rest := segments;
    assert items[0..] == items && items[..0] == [];
    PrefixedNone(JoinItems(plan, name, items, segments));
    for i := 0 to |ps|
      invariant |now| == |items| && now[i..] == items[i..] && ItemsOwn(ps, now, f)
      invariant JoinItems(plan, name, items, segments) == Prefixed(now[..i], JoinItems(plan, name, items[i..], rest))
    {
      ghost var r := JoinChild(plan, name, items[i], rest);
      NextItem(plan, name, items, i, now, rest);
      ok, rest := JoinItem(plan, name, ps, i, rest, now, items[i], f);
      if !ok {
        return;
      }
      now := now[i := r.value.0];
    }
    assert items[|ps|..] == [] && now[..|ps|] + [] == now;
    ok := true;
  }

  /** One item, in memory of its own. */
  method JoinItem(plan: Plan, name: Msg, ps: seq<Node?>, i: nat, segments: seq<Bytes>, ghost items: seq<Child>, ghost c: Child, ghost f: Part)
    returns (ok: bool, rest: seq<Bytes>)
    requires PlanOk(plan) && ItemsOwn(ps, items, f) && i < |ps| && items[i] == c
    modifies f.all
    ensures ok <==> JoinChild(plan, name, c, segments).Some?
    ensures ok ==>
              rest == JoinChild(plan, name, c, segments).value.1
              && ItemsOwn(ps, items[i := JoinChild(plan, name, c, segments).value.0], f)
    decreases c, 2
  {
    ok, rest := JoinRaw(plan, name, ps[i], segments, c, f.children[i]);
    assert forall j :: 0 <= j < |ps| && j != i ==> Owns(ps[j], items[j], f.children[j]);
  }

  lemma NextItem(plan: Plan, name: Msg, items: seq<Child>, i: nat, now: seq<Child>, raw: seq<Bytes>)
    requires i < |items| == |now| && now[i..] == items[i..]
    ensures now[i] == items[i]
    ensures
      var r := JoinChild(plan, name, items[i], raw);
      && (r.None? ==> JoinItems(plan, name, items[i..], raw).None?)
      && (r.Some? ==>
            var next := now[i := r.value.0];
            && next[i + 1..] == items[i + 1..]
            && Prefixed(now[..i], JoinItems(plan, name, items[i..], raw))
               == Prefixed(next[..i + 1], JoinItems(plan, name, items[i + 1..], r.value.1)))
  {
    assert now[i] == now[i..][0] && items[i] == items[i..][0];
    assert items[i..][1..] == items[i + 1..] && now[i..][1..] == now[i + 1..];
    var r := JoinChild(plan, name, items[i], raw);
    if r.Some? {
      var next := now[i := r.value.0];
      assert next[..i + 1] == now[..i] + [r.value.0] && next[i + 1..] == now[i + 1..];
      PrefixedOne(now[..i], r.value.0, JoinItems(plan, name, items[i + 1..], r.value.1));
    }
  }

  ghost function Prefixed(done: seq<Child>, r: Joined<seq<Child>>): Joined<seq<Child>> {
    if r.None? then None else Some((done + r.value.0, r.value.1))
  }

  lemma PrefixedNone(r: Joined<seq<Child>>)
    ensures Prefixed([], r) == r
  {
    if r.Some? {
      assert [] + r.value.0 == r.value.0;
    }
  }

  lemma PrefixedOne(done: seq<Child>, c: Child, r: Joined<seq<Child>>)
    ensures Prefixed(done, Prefixed([c], r)) == Prefixed(done + [c], r)
  {
    if r.Some? {
      assert done + ([c] + r.value.0) == done + [c] + r.value.0;
    }
  }

  /** A received frame: joining the header that was split off, decoded into memory of
      its own, with the segments it was sent with gives the message back. */
  method JoinAllRaw(plan: Plan, name: Msg, m: Node, segments: seq<Bytes>, ghost v: Val, ghost f: Foot) returns (ok: bool)
    requires PlanOk(plan) && Owns(m, Child(Header(plan, name, v)), f)
    modifies f.all
    ensures ok <==> |segments| == |Segments(plan, name, v)|
    ensures segments == Segments(plan, name, v) ==> ok && Owns(m, Child(v), f)
  {
    var rest;
    ghost var h := Header(plan, name, v);
    JoinAllExactly(plan, name, v, segments);
    ok, rest := JoinRaw(plan, name, m, segments, Child(h), f);
    ok := ok && |rest| == 0;
  }
}
