/**
 The generated Go split: it copies each struct it has to change, walks the steps
 with one switch per oneof, and leaves the caller's message alone. No method here
 has a `modifies` clause, so nothing that existed before a call is changed by it.
 */
module RawHeap {

  import opened RawFrame
  import opened RawPlan
  import opened RawSplit
  import opened RawTargets

  // ---- messages on the heap -----------------------------------------------

  datatype Slot =
    | SData(bytes: Bytes)
    | SOne(p: Node?)
    | SNilList
    | SMany(items: seq<Node?>)
    | SChoice(picked: VariantStruct?)
    | SOther(text: string)

  /** A generated struct. */
  class Node {
    var fields: map<string, Slot>

    constructor (fields: map<string, Slot>)
      ensures this.fields == fields
    {
      this.fields := fields;
    }
  }

  /** A oneof's value: the struct of the variant that is set. */
  class VariantStruct {
    const name: string
    const tag: string
    var child: Node?

    constructor (name: string, tag: string, child: Node?)
      ensures this.name == name && this.tag == tag && this.child == child
    {
      this.name, this.tag, this.child := name, tag, child;
    }
  }

  /** The pointer holds the message `c`, in memory within `s`. */
  ghost predicate Holds(p: Node?, c: Child, s: set<object>)
    reads s
    decreases c
  {
    match c
    case Nil => p == null
    case Child(v) => p != null && p in s && HoldsVal(p, v, s)
  }

  ghost predicate HoldsVal(p: Node, v: Val, s: set<object>)
    requires p in s
    reads s
    decreases v
  {
    p.fields.Keys == v.fields.Keys && forall f <- v.fields :: SlotHolds(p.fields[f], v.fields[f], s)
  }

  ghost predicate SlotHolds(slot: Slot, x: FieldVal, s: set<object>)
    reads s
    decreases x
  {
    match x
    case Data(bytes) => slot == SData(bytes)
    case One(c) => slot.SOne? && Holds(slot.p, c, s)
    case NilList => slot.SNilList?
    case Many(items) => slot.SMany? && |slot.items| == |items| && forall i :: 0 <= i < |items| ==> Holds(slot.items[i], items[i], s)
    case Choice(None) => slot == SChoice(null)
    case Choice(Some(p)) =>
      slot.SChoice? && slot.picked != null && slot.picked in s
      && slot.picked.name == p.name && slot.picked.tag == p.tag && Holds(slot.picked.child, p.child, s)
    case Other(text) => slot == SOther(text)
  }

  /** More memory does not hurt. */
  lemma {:induction false} HoldsMore(p: Node?, c: Child, s: set<object>, t: set<object>)
    requires Holds(p, c, s) && s <= t
    ensures Holds(p, c, t)
    decreases c
  {
    if c.Child? {
      forall f | f in c.val.fields
        ensures SlotHolds(p.fields[f], c.val.fields[f], t)
      {
        SlotHoldsMore(p.fields[f], c.val.fields[f], s, t);
      }
    }
  }

  lemma {:induction false} SlotHoldsMore(slot: Slot, x: FieldVal, s: set<object>, t: set<object>)
    requires SlotHolds(slot, x, s) && s <= t
    ensures SlotHolds(slot, x, t)
    decreases x
  {
    match x
    case One(c) => HoldsMore(slot.p, c, s, t);
    case Many(items) =>
      forall i | 0 <= i < |items|
        ensures Holds(slot.items[i], items[i], t)
      {
        HoldsMore(slot.items[i], items[i], s, t);
      }
    case Choice(picked) => if picked.Some? { HoldsMore(slot.picked.child, picked.value.child, s, t); }
    case Data(_) =>
    case NilList =>
    case Other(_) =>
  }

  /** Every field of `q` holds its part of `fields`, all outside `q` itself. */
  ghost predicate Filled(q: Node, fields: map<string, FieldVal>, s: set<object>)
    reads q, s
  {
    q !in s && q.fields.Keys == fields.Keys && forall f <- fields :: SlotHolds(q.fields[f], fields[f], s)
  }

  lemma FilledMore(q: Node, fields: map<string, FieldVal>, s: set<object>, t: set<object>)
    requires Filled(q, fields, s) && s <= t && q !in t
    ensures Filled(q, fields, t)
  {
    forall f | f in fields
      ensures SlotHolds(q.fields[f], fields[f], t)
    {
      SlotHoldsMore(q.fields[f], fields[f], s, t);
    }
  }

  // ---- the generated split ------------------------------------------------

  /** `wsSplitRaw`: nil stays nil; otherwise a copy without raw fields, and the
      segments appended to `before`. */
  method Split(plan: Plan, name: Msg, m: Node?, before: seq<Bytes>, ghost c: Child, ghost s: set<object>)
    returns (h: Node?, raw: seq<Bytes>, ghost t: set<object>)
    requires PlanOk(plan) && Holds(m, c, s)
    ensures s <= t && fresh(t - s) && Holds(h, BlankedChild(plan, name, c), t) && (h != null ==> fresh(h))
    ensures raw == before + TakenChild(plan, name, c)
    decreases c
  {
    if m == null {
      assert before + [] == before;
      return null, before, s;
    }
    var copy := new Node(m.fields);
    raw, t := SplitFields(plan, name, copy, before, c.val, s);
    h := copy;
    ghost var inner := t;
    t := t + {copy};
    FilledHolds(copy, Header(plan, name, c.val), inner, t);
  }

  /** The steps on the copy. */
  method SplitFields(plan: Plan, name: Msg, q: Node, before: seq<Bytes>, ghost v: Val, ghost s: set<object>)
    returns (raw: seq<Bytes>, ghost t: set<object>)
    requires PlanOk(plan) && Filled(q, v.fields, s)
    modifies q
    ensures s <= t && fresh(t - s) && Filled(q, Header(plan, name, v).fields, t)
    ensures raw == before + Segments(plan, name, v)
    decreases v, 2
  {
    var steps := Steps(plan, name);
    raw, t := before, s;
    PartlyNone(plan, name, v);
    assert steps[0..] == steps;
    var i := 0;
    while i < |steps|
      invariant 0 <= i <= |steps| && s <= t && fresh(t - s)
      invariant Filled(q, Partly(plan, name, v, i), t)
      invariant Leaves(plan, steps, 0, before, i, raw, v)
    {
      ghost var was, at := raw, i;
      if steps[i].act.Case? {
        i, raw, t := SplitSwitch(plan, name, i, q, raw, v, t);
      } else {
        raw, t := SplitStep(plan, name, i, q, raw, v, t);
        NextSegments(plan, steps, i, v, was);
        i := i + 1;
      }
      assert Leaves(plan, steps, at, was, i, raw, v);
    }
    LeavesNothing(plan, steps, before, raw, v);
    PartlyAll(plan, name, v);
  }

  /** From step `i` with `raw` collected, the rest comes to the same as from step `j`
      with `more` collected. */
  ghost predicate Leaves(plan: Plan, steps: seq<Step>, i: nat, raw: seq<Bytes>, j: nat, more: seq<Bytes>, v: Val)
    requires i <= |steps| && j <= |steps|
  {
    raw + StepSegments(plan, steps[i..], v) == more + StepSegments(plan, steps[j..], v)
  }

  lemma LeavesNothing(plan: Plan, steps: seq<Step>, before: seq<Bytes>, raw: seq<Bytes>, v: Val)
    requires Leaves(plan, steps, 0, before, |steps|, raw, v)
    ensures raw == before + StepSegments(plan, steps, v)
  {
    assert steps[0..] == steps && steps[|steps|..] == [] && raw + [] == raw;
  }

  /** The segments from step `i` on: its own, then the later ones. */
  lemma NextSegments(plan: Plan, steps: seq<Step>, i: nat, v: Val, before: seq<Bytes>)
    requires i < |steps|
    ensures Leaves(plan, steps, i, before, i + 1, before + StepTaken(plan, steps[i], v), v)
  {
    assert steps[i..][0] == steps[i] && steps[i..][1..] == steps[i + 1..];
  }

  function StepTaken(plan: Plan, st: Step, v: Val): seq<Bytes> {
    if Acts(st, v) then Taken(plan, st, v.fields[st.field]) else []
  }

  lemma FilledHolds(q: Node, v: Val, s: set<object>, t: set<object>)
    requires Filled(q, v.fields, s) && s <= t && q in t
    ensures HoldsVal(q, v, t)
  {
    forall f | f in v.fields
      ensures SlotHolds(q.fields[f], v.fields[f], t)
    {
      SlotHoldsMore(q.fields[f], v.fields[f], s, t);
    }
  }

  /** One step on the copy `q`: what it acts on is replaced, the rest stays. */
  method SplitStep(plan: Plan, name: Msg, i: nat, q: Node, before: seq<Bytes>, ghost v: Val, ghost s: set<object>)
    returns (raw: seq<Bytes>, ghost t: set<object>)
    requires PlanOk(plan) && i < |Steps(plan, name)| && Filled(q, Partly(plan, name, v, i), s)
    modifies q
    ensures s <= t && fresh(t - s) && Filled(q, Partly(plan, name, v, i + 1), t)
    ensures raw == before + StepTaken(plan, Steps(plan, name)[i], v)
    decreases v, 0
  {
    var st := Steps(plan, name)[i];
    PartlyNext(plan, name, v, i);
    assert before + [] == before;
    raw, t := before, s;
    if st.field in q.fields {
      var slot := q.fields[st.field];
      ghost var fields := Partly(plan, name, v, i);
      ghost var x := fields[st.field];
      SlotAppliesIff(st, slot, x, s);
      if SlotApplies(st, slot) {
        slot, raw, t := SplitSlot(plan, st, slot, before, x, s);
        FilledMore(q, fields, s, t);
        Store(q, st.field, slot, fields, Blanked(plan, st, x), t);
      }
    }
  }

  method Store(q: Node, f: string, slot: Slot, ghost fields: map<string, FieldVal>, ghost x: FieldVal, ghost s: set<object>)
    requires Filled(q, fields, s) && f in fields && SlotHolds(slot, x, s)
    modifies q
    ensures Filled(q, fields[f := x], s)
  {
    q.fields := q.fields[f := slot];
  }

  /** The steps of one oneof, from step `i` on, as one switch: at most one case runs. */
  method SplitSwitch(plan: Plan, name: Msg, i: nat, q: Node, before: seq<Bytes>, ghost v: Val, ghost s: set<object>)
    returns (j: nat, raw: seq<Bytes>, ghost t: set<object>)
    requires PlanOk(plan) && i < |Steps(plan, name)| && Filled(q, Partly(plan, name, v, i), s)
    modifies q
    ensures i < j <= |Steps(plan, name)|
    ensures s <= t && fresh(t - s) && Filled(q, Partly(plan, name, v, j), t)
    ensures Leaves(plan, Steps(plan, name), i, before, j, raw, v)
    decreases v, 1
  {
    var steps := Steps(plan, name);
    var field := steps[i].field;
    var matched := false;
    j, raw, t := i, before, s;
    while j < |steps| && steps[j].field == field
      invariant i <= j <= |steps| && s <= t && fresh(t - s)
      invariant Filled(q, Partly(plan, name, v, j), t)
      invariant matched ==> exists k :: i <= k < j && steps[k].field == field && Acts(steps[k], v)
      invariant Leaves(plan, steps, i, before, j, raw, v)
    {
      ghost var was := raw;
      if matched {
        ghost var k :| i <= k < j && steps[k].field == field && Acts(steps[k], v);
        AtMostOne(steps, k, j, v);
        SkipStep(plan, name, j, v, raw);
      } else {
        matched := StepMatches(plan, name, j, q, v, t);
        raw, t := SplitStep(plan, name, j, q, raw, v, t);
        NextSegments(plan, steps, j, v, was);
      }
      assert Leaves(plan, steps, j, was, j + 1, raw, v);
      j := j + 1;
    }
  }

  /** Whether the case is the one to run. */
  method StepMatches(plan: Plan, name: Msg, j: nat, q: Node, ghost v: Val, ghost s: set<object>) returns (b: bool)
    requires PlanOk(plan) && j < |Steps(plan, name)| && Filled(q, Partly(plan, name, v, j), s)
    ensures b <==> Acts(Steps(plan, name)[j], v)
  {
    var st := Steps(plan, name)[j];
    PartlyNext(plan, name, v, j);
    if st.field !in q.fields {
      return false;
    }
    SlotAppliesIff(st, q.fields[st.field], Partly(plan, name, v, j)[st.field], s);
    b := SlotApplies(st, q.fields[st.field]);
  }

  lemma SkipStep(plan: Plan, name: Msg, j: nat, v: Val, raw: seq<Bytes>)
    requires PlanOk(plan) && j < |Steps(plan, name)| && !Acts(Steps(plan, name)[j], v)
    ensures Partly(plan, name, v, j + 1) == Partly(plan, name, v, j)
    ensures Leaves(plan, Steps(plan, name), j, raw, j + 1, raw, v)
  {
    PartlyNext(plan, name, v, j);
    NextSegments(plan, Steps(plan, name), j, v, raw);
    assert raw + [] == raw;
  }

  lemma AtMostOne(steps: seq<Step>, k: nat, j: nat, v: Val)
    requires StepsOk(steps) && k < j < |steps| && steps[k].field == steps[j].field && Acts(steps[k], v)
    ensures !Acts(steps[j], v)
  {
    assert Exclusive(steps[k].act, steps[j].act);
  }

  /** What the generated code looks at to decide whether there is anything to do. */
  predicate SlotApplies(st: Step, slot: Slot)
    reads if slot.SChoice? && slot.picked != null then {slot.picked} else {}
  {
    match st.act
    case Take => slot.SData?
    case Into(_) => slot.SOne?
    case Each(_) => slot.SMany?
    case Case(name, _, _) => slot.SChoice? && slot.picked != null && slot.picked.name == name
  }

  lemma SlotAppliesIff(st: Step, slot: Slot, x: FieldVal, s: set<object>)
    requires SlotHolds(slot, x, s)
    ensures SlotApplies(st, slot) <==> Applies(st, x)
  {
  }

  method SplitSlot(plan: Plan, st: Step, slot: Slot, before: seq<Bytes>, ghost x: FieldVal, ghost s: set<object>)
    returns (r: Slot, raw: seq<Bytes>, ghost t: set<object>)
    requires PlanOk(plan) && SlotHolds(slot, x, s) && Applies(st, x)
    ensures s <= t && fresh(t - s) && SlotHolds(r, Blanked(plan, st, x), t)
    ensures raw == before + Taken(plan, st, x)
    decreases x
  {
    match st.act
    case Take =>
      r, raw, t := SData([]), before + [slot.bytes], s;
    case Into(child) =>
      var p;
      p, raw, t := Split(plan, child, slot.p, before, x.child, s);
      r := SOne(p);
    case Each(child) =>
      var items;
      items, raw, t := SplitItems(plan, child, slot.items, before, x.items, s);
      r := SMany(items);
    case Case(name, tag, child) =>
      var p;
      p, raw, t := Split(plan, child, slot.picked.child, before, x.picked.value.child, s);
      var copy := new VariantStruct(slot.picked.name, slot.picked.tag, p);
      r := SChoice(copy);
      ghost var inner := t;
      t := t + {copy};
      HoldsMore(p, BlankedChild(plan, child, x.picked.value.child), inner, t);
  }

  method SplitItems(plan: Plan, name: Msg, items: seq<Node?>, before: seq<Bytes>, ghost cs: seq<Child>, ghost s: set<object>)
    returns (r: seq<Node?>, raw: seq<Bytes>, ghost t: set<object>)
    requires PlanOk(plan) && |items| == |cs| && forall i :: 0 <= i < |items| ==> Holds(items[i], cs[i], s)
    ensures s <= t && fresh(t - s) && |r| == |BlankedItems(plan, name, cs)|
    ensures forall i :: 0 <= i < |r| ==> Holds(r[i], BlankedItems(plan, name, cs)[i], t)
    ensures raw == before + TakenItems(plan, name, cs)
    decreases cs
  {
    ghost var blanked := BlankedItems(plan, name, cs);
    r, raw, t := [], before, s;
    assert cs[0..] == cs;
    for i := 0 to |items|
      invariant |r| == i && s <= t && fresh(t - s)
      invariant forall j :: 0 <= j < i ==> Holds(r[j], blanked[j], t)
      invariant raw + TakenItems(plan, name, cs[i..]) == before + TakenItems(plan, name, cs)
    {
      BlankedAt(plan, name, cs, i);
      assert cs[i..][0] == cs[i] && cs[i..][1..] == cs[i + 1..];
      HoldsMore(items[i], cs[i], s, t);
      ghost var was, u := raw, t;
      var p;
      p, raw, t := Split(plan, name, items[i], raw, cs[i], t);
      forall j | 0 <= j < i
        ensures Holds(r[j], blanked[j], t)
      {
        HoldsMore(r[j], blanked[j], u, t);
      }
      r := r + [p];
      Continue(was, raw, TakenChild(plan, name, cs[i]), TakenItems(plan, name, cs[i + 1..]));
    }
    assert cs[|items|..] == [] && raw + [] == raw;
  }

  lemma {:induction false} BlankedAt(plan: Plan, name: Msg, cs: seq<Child>, i: nat)
    requires i < |cs|
    ensures BlankedItems(plan, name, cs)[i] == BlankedChild(plan, name, cs[i])
    decreases |cs|
  {
    if i > 0 {
      BlankedAt(plan, name, cs[1..], i - 1);
    }
  }
}
