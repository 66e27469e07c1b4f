/**
 Splitting a message into a header without raw fields and the raw segments, and
 joining them back. Splitting loses nothing, joining consumes exactly what was
 split off, and the header of a message has no raw bytes left anywhere.
 */
module RawSplit {

  import opened Wrappers
  import opened RawFrame
  import opened RawPlan

  type Plan = map<Msg, seq<Step>>

  function Steps(plan: Plan, name: Msg): seq<Step> {
    if name in plan then plan[name] else []
  }

  // ---- messages -----------------------------------------------------------

  /** A set oneof: which variant, the tag it travels under, and a message if any. */
  datatype Picked = Picked(name: string, tag: string, child: Child)

  /** A pointer to a message. */
  datatype Child = Nil | Child(val: Val)

  datatype FieldVal =
    | Data(bytes: Bytes)
    | One(child: Child)
    | NilList
    | Many(items: seq<Child>)
    | Choice(picked: Option<Picked>)
    | Other(text: string)

  datatype Val = Val(fields: map<string, FieldVal>)

  // ---- splitting ----------------------------------------------------------

  /** Whether a step finds something to split in a field. */
  predicate Applies(s: Step, x: FieldVal) {
    match s.act
    case Take => x.Data?
    case Into(_) => x.One?
    case Each(_) => x.Many?
    case Case(name, _, _) => x.Choice? && x.picked.Some? && x.picked.value.name == name
  }

  predicate Acts(s: Step, v: Val) {
    s.field in v.fields && Applies(s, v.fields[s.field])
  }

  /** The field as the header has it. */
  function Blanked(plan: Plan, s: Step, x: FieldVal): FieldVal
    requires Applies(s, x)
    decreases x, 0
  {
    match s.act
    case Take => Data([])
    case Into(child) => One(BlankedChild(plan, child, x.child))
    case Each(child) => Many(BlankedItems(plan, child, x.items))
    case Case(_, _, child) => Choice(Some(x.picked.value.(child := BlankedChild(plan, child, x.picked.value.child))))
  }

  function BlankedChild(plan: Plan, name: Msg, c: Child): Child
    decreases c
  {
    match c
    case Nil => Nil
    case Child(v) => Child(Header(plan, name, v))
  }

  function BlankedItems(plan: Plan, child: Msg, items: seq<Child>): (r: seq<Child>)
    ensures |r| == |items|
    decreases items
  {
    if items == [] then []
    else [BlankedChild(plan, child, items[0])] + BlankedItems(plan, child, items[1..])
  }

  /** The segments a step takes out of a field, in order. */
  function Taken(plan: Plan, s: Step, x: FieldVal): seq<Bytes>
    requires Applies(s, x)
    decreases x, 0
  {
    match s.act
    case Take => [x.bytes]
    case Into(child) => TakenChild(plan, child, x.child)
    case Each(child) => TakenItems(plan, child, x.items)
    case Case(_, _, child) => TakenChild(plan, child, x.picked.value.child)
  }

  function TakenChild(plan: Plan, name: Msg, c: Child): seq<Bytes>
    decreases c
  {
    match c
    case Nil => []
    case Child(v) => Segments(plan, name, v)
  }

  function TakenItems(plan: Plan, child: Msg, items: seq<Child>): seq<Bytes>
    decreases items
  {
    if items == [] then []
    else TakenChild(plan, child, items[0]) + TakenItems(plan, child, items[1..])
  }

  function HeaderField(plan: Plan, steps: seq<Step>, f: string, x: FieldVal): FieldVal
    decreases x, 1, |steps|
  {
    if steps == [] then x
    else if steps[0].field == f && Applies(steps[0], x) then Blanked(plan, steps[0], x)
    else HeaderField(plan, steps[1..], f, x)
  }

  function Header(plan: Plan, name: Msg, v: Val): Val
    decreases v, 1
  {
    Val(map f | f in v.fields :: HeaderField(plan, Steps(plan, name), f, v.fields[f]))
  }

  function Segments(plan: Plan, name: Msg, v: Val): seq<Bytes>
    decreases v, 1
  {
    StepSegments(plan, Steps(plan, name), v)
  }

  function StepSegments(plan: Plan, steps: seq<Step>, v: Val): seq<Bytes>
    decreases v, 0, |steps|
  {
    if steps == [] then []
    else (if Acts(steps[0], v) then Taken(plan, steps[0], v.fields[steps[0].field]) else []) + StepSegments(plan, steps[1..], v)
  }

  // ---- joining ------------------------------------------------------------

  type Joined<T> = Option<(T, seq<Bytes>)>

  function JoinField(plan: Plan, s: Step, x: FieldVal, raw: seq<Bytes>): Joined<FieldVal>
    requires Applies(s, x)
    decreases x, 0
  {
    match s.act
    case Take => if raw == [] then None else Some((Data(raw[0]), raw[1..]))
    case Into(child) =>
      (match JoinChild(plan, child, x.child, raw)
       case None => None
       case Some((c, rest)) => Some((One(c), rest)))
    case Each(child) =>
      (match JoinItems(plan, child, x.items, raw)
       case None => None
       case Some((vs, rest)) => Some((Many(vs), rest)))
    case Case(_, _, child) =>
      (match JoinChild(plan, child, x.picked.value.child, raw)
       case None => None
       case Some((c, rest)) => Some((Choice(Some(x.picked.value.(child := c))), rest)))
  }

  function JoinChild(plan: Plan, name: Msg, c: Child, raw: seq<Bytes>): Joined<Child>
    decreases c
  {
    match c
    case Nil => Some((Nil, raw))
    case Child(v) =>
      match Join(plan, name, v, raw)
      case None => None
      case Some((w, rest)) => Some((Child(w), rest))
  }

  function JoinItems(plan: Plan, child: Msg, items: seq<Child>, raw: seq<Bytes>): Joined<seq<Child>>
    decreases items
  {
    if items == [] then Some(([], raw))
    else
      match JoinChild(plan, child, items[0], raw)
      case None => None
      case Some((c, more)) =>
        match JoinItems(plan, child, items[1..], more)
        case None => None
        case Some((cs, rest)) => Some(([c] + cs, rest))
  }

  /** Joins into the fields of `v`; `acc` holds the fields joined so far. */
  function JoinSteps(plan: Plan, steps: seq<Step>, v: Val, acc: map<string, FieldVal>, raw: seq<Bytes>): Joined<Val>
    decreases v, 0, |steps|
  {
    if steps == [] then Some((Val(acc), raw))
    else if !Acts(steps[0], v) then JoinSteps(plan, steps[1..], v, acc, raw)
    else
      match JoinField(plan, steps[0], v.fields[steps[0].field], raw)
      case None => None
      case Some((x, rest)) => JoinSteps(plan, steps[1..], v, acc[steps[0].field := x], rest)
  }

  function Join(plan: Plan, name: Msg, v: Val, raw: seq<Bytes>): Joined<Val>
    decreases v, 1
  {
    JoinSteps(plan, Steps(plan, name), v, v.fields, raw)
  }

  /** The whole frame: every segment has to be used. */
  function JoinAll(plan: Plan, name: Msg, v: Val, raw: seq<Bytes>): Option<Val> {
    match Join(plan, name, v, raw)
    case None => None
    case Some((w, rest)) => if rest == [] then Some(w) else None
  }

  // ---- well-formed plans and messages -------------------------------------

  /** A field has one step, or one step per variant. */
  predicate StepsOk(steps: seq<Step>) {
    forall i, j :: 0 <= i < j < |steps| && steps[i].field == steps[j].field ==> Exclusive(steps[i].act, steps[j].act)
  }

  predicate Exclusive(a: Act, b: Act) {
    a.Case? && b.Case? && a.name != b.name && a.tag != b.tag
  }

  predicate PlanOk(plan: Plan) {
    forall m <- plan :: StepsOk(plan[m])
  }

  /** A message has the fields its steps read, each of its kind, all the way down. */
  ghost predicate Typed(plan: Plan, name: Msg, v: Val)
    decreases v
  {
    forall s <- Steps(plan, name) :: s.field in v.fields && FieldTyped(plan, s, v.fields[s.field])
  }

  ghost predicate FieldTyped(plan: Plan, s: Step, x: FieldVal)
    decreases x
  {
    match s.act
    case Take => x.Data?
    case Into(child) => x.One? && (x.child.Child? ==> Typed(plan, child, x.child.val))
    case Each(child) => x.NilList? || (x.Many? && forall item <- x.items :: item.Child? ==> Typed(plan, child, item.val))
    case Case(name, tag, child) =>
      x.Choice? && (x.picked.Some? ==>
        var p := x.picked.value;
        (p.name == name <==> p.tag == tag) && (p.name == name && p.child.Child? ==> Typed(plan, child, p.child.val)))
  }

  // ---- nothing is lost ----------------------------------------------------

  /** Blanking does not change which steps apply. */
  lemma BlankedApplies(plan: Plan, s: Step, t: Step, x: FieldVal)
    requires Applies(s, x)
    ensures Applies(t, Blanked(plan, s, x)) <==> Applies(t, x)
  {
  }

  lemma {:induction false} HeaderFieldApplies(plan: Plan, steps: seq<Step>, f: string, x: FieldVal, t: Step)
    ensures Applies(t, HeaderField(plan, steps, f, x)) <==> Applies(t, x)
    decreases |steps|
  {
    if steps != [] {
      if steps[0].field == f && Applies(steps[0], x) {
        BlankedApplies(plan, steps[0], t, x);
      } else {
        HeaderFieldApplies(plan, steps[1..], f, x, t);
      }
    }
  }

  /** The one step that applies decides the header's field. */
  lemma {:induction false} HeaderFieldIs(plan: Plan, steps: seq<Step>, i: nat, x: FieldVal)
    requires StepsOk(steps) && i < |steps| && Applies(steps[i], x)
    ensures HeaderField(plan, steps, steps[i].field, x) == Blanked(plan, steps[i], x)
    decreases |steps|
  {
    if i > 0 {
      assert steps[1..][i - 1] == steps[i];
      HeaderFieldIs(plan, steps[1..], i - 1, x);
    }
  }

  lemma {:induction false} HeaderFieldKept(plan: Plan, steps: seq<Step>, f: string, x: FieldVal)
    requires forall s <- steps :: s.field == f ==> !Applies(s, x)
    ensures HeaderField(plan, steps, f, x) == x
    decreases |steps|
  {
    if steps != [] {
      HeaderFieldKept(plan, steps[1..], f, x);
    }
  }

  /** The header's fields, those that the first `i` steps act on restored. */
  ghost function Restored(plan: Plan, name: Msg, v: Val, i: nat): map<string, FieldVal>
    requires i <= |Steps(plan, name)|
  {
    map f | f in v.fields ::
      if exists j :: 0 <= j < i && Steps(plan, name)[j].field == f && Applies(Steps(plan, name)[j], v.fields[f])
      then v.fields[f] else Header(plan, name, v).fields[f]
  }

  lemma RestoredNone(plan: Plan, name: Msg, v: Val)
    ensures Restored(plan, name, v, 0) == Header(plan, name, v).fields
  {
  }

  lemma RestoredAll(plan: Plan, name: Msg, v: Val)
    ensures Restored(plan, name, v, |Steps(plan, name)|) == v.fields
  {
    var steps := Steps(plan, name);
    forall f | f in v.fields
      ensures Restored(plan, name, v, |steps|)[f] == v.fields[f]
    {
      if !exists j :: 0 <= j < |steps| && steps[j].field == f && Applies(steps[j], v.fields[f]) {
        HeaderFieldKept(plan, steps, f, v.fields[f]);
      }
    }
  }

  lemma RestoredNext(plan: Plan, name: Msg, v: Val, i: nat)
    requires i < |Steps(plan, name)|
    ensures
      var s := Steps(plan, name)[i];
      Restored(plan, name, v, i + 1)
      == if Acts(s, v) then Restored(plan, name, v, i)[s.field := v.fields[s.field]] else Restored(plan, name, v, i)
  {
  }

  /** Joining the split header with its segments gives the message back, and leaves
      whatever followed them. */
  lemma {:induction false} JoinOfSplit(plan: Plan, name: Msg, v: Val, rest: seq<Bytes>)
    requires PlanOk(plan)
    ensures Join(plan, name, Header(plan, name, v), Segments(plan, name, v) + rest) == Some((v, rest))
    decreases v, 1
  {
    var steps := Steps(plan, name);
    assert steps[0..] == steps;
    RestoredNone(plan, name, v);
    JoinStepsOfSplit(plan, name, 0, v, rest);
  }

  lemma {:induction false} JoinStepsOfSplit(plan: Plan, name: Msg, i: nat, v: Val, rest: seq<Bytes>)
    requires PlanOk(plan) && i <= |Steps(plan, name)|
    ensures
      var steps := Steps(plan, name);
      JoinSteps(plan, steps[i..], Header(plan, name, v), Restored(plan, name, v, i), StepSegments(plan, steps[i..], v) + rest)
      == Some((v, rest))
    decreases v, 0, |Steps(plan, name)| - i
  {
    var steps, h := Steps(plan, name), Header(plan, name, v);
    if i == |steps| {
      RestoredAll(plan, name, v);
      assert [] + rest == rest;
    } else {
      var s := steps[i];
      var after := StepSegments(plan, steps[i + 1..], v);
      assert steps[i..][0] == s && steps[i..][1..] == steps[i + 1..];
      RestoredNext(plan, name, v, i);
      JoinStepsOfSplit(plan, name, i + 1, v, rest);
      if s.field in v.fields {
        HeaderFieldApplies(plan, steps, s.field, v.fields[s.field], s);
      }
      if Acts(s, v) {
        var x := v.fields[s.field];
        HeaderFieldIs(plan, steps, i, x);
        JoinFieldOfSplit(plan, s, x, after + rest);
        assert Taken(plan, s, x) + after + rest == Taken(plan, s, x) + (after + rest);
      } else {
        assert [] + after == after;
      }
    }
  }

  lemma {:induction false} JoinFieldOfSplit(plan: Plan, s: Step, x: FieldVal, rest: seq<Bytes>)
    requires PlanOk(plan) && Applies(s, x)
    ensures Applies(s, Blanked(plan, s, x))
    ensures JoinField(plan, s, Blanked(plan, s, x), Taken(plan, s, x) + rest) == Some((x, rest))
    decreases x, 0
  {
    match s.act
    case Take =>
    case Into(child) => JoinChildOfSplit(plan, child, x.child, rest);
    case Each(child) => JoinItemsOfSplit(plan, child, x.items, rest);
    case Case(_, _, child) => JoinChildOfSplit(plan, child, x.picked.value.child, rest);
  }

  lemma {:induction false} JoinChildOfSplit(plan: Plan, name: Msg, c: Child, rest: seq<Bytes>)
    requires PlanOk(plan)
    ensures JoinChild(plan, name, BlankedChild(plan, name, c), TakenChild(plan, name, c) + rest) == Some((c, rest))
    decreases c
  {
    match c
    case Nil => assert [] + rest == rest;
    case Child(v) => JoinOfSplit(plan, name, v, rest);
  }

  lemma {:induction false} JoinItemsOfSplit(plan: Plan, child: Msg, items: seq<Child>, rest: seq<Bytes>)
    requires PlanOk(plan)
    ensures JoinItems(plan, child, BlankedItems(plan, child, items), TakenItems(plan, child, items) + rest) == Some((items, rest))
    decreases items
  {
    if items != [] {
      var blanked, after := BlankedItems(plan, child, items), TakenItems(plan, child, items[1..]);
      assert blanked[1..] == BlankedItems(plan, child, items[1..]);
      assert [items[0]] + items[1..] == items;
      JoinItemsOfSplit(plan, child, items[1..], rest);
      JoinChildOfSplit(plan, child, items[0], after + rest);
      assert TakenItems(plan, child, items) + rest == TakenChild(plan, child, items[0]) + (after + rest);
    } else {
      assert [] + rest == rest;
    }
  }

  // ---- how many segments --------------------------------------------------

  /** Joining succeeds exactly when there are as many segments as splitting the same
      shape would give, and leaves the others. */
  lemma {:induction false} JoinConsumes(plan: Plan, name: Msg, v: Val, raw: seq<Bytes>)
    ensures
      var n := |Segments(plan, name, v)|;
      if |raw| < n then Join(plan, name, v, raw).None?
      else Join(plan, name, v, raw).Some? && Join(plan, name, v, raw).value.1 == raw[n..]
    decreases v, 1
  {
    JoinStepsConsume(plan, Steps(plan, name), v, v.fields, raw);
  }

  lemma {:induction false} JoinStepsConsume(plan: Plan, steps: seq<Step>, v: Val, acc: map<string, FieldVal>, raw: seq<Bytes>)
    ensures
      var n := |StepSegments(plan, steps, v)|;
      var r := JoinSteps(plan, steps, v, acc, raw);
      if |raw| < n then r.None? else r.Some? && r.value.1 == raw[n..]
    decreases v, 0, |steps|
  {
    if steps != [] {
      var s := steps[0];
      if Acts(s, v) {
        var x := v.fields[s.field];
        JoinFieldConsumes(plan, s, x, raw);
        var r := JoinField(plan, s, x, raw);
        if r.Some? {
          JoinStepsConsume(plan, steps[1..], v, acc[s.field := r.value.0], r.value.1);
        }
      } else {
        JoinStepsConsume(plan, steps[1..], v, acc, raw);
      }
    }
  }

  lemma {:induction false} JoinFieldConsumes(plan: Plan, s: Step, x: FieldVal, raw: seq<Bytes>)
    requires Applies(s, x)
    ensures
      var n := |Taken(plan, s, x)|;
      var r := JoinField(plan, s, x, raw);
      if |raw| < n then r.None? else r.Some? && r.value.1 == raw[n..]
    decreases x, 0
  {
    match s.act
    case Take =>
    case Into(child) => JoinChildConsumes(plan, child, x.child, raw);
    case Each(child) => JoinItemsConsume(plan, child, x.items, raw);
    case Case(_, _, child) => JoinChildConsumes(plan, child, x.picked.value.child, raw);
  }

  lemma {:induction false} JoinChildConsumes(plan: Plan, name: Msg, c: Child, raw: seq<Bytes>)
    ensures
      var n := |TakenChild(plan, name, c)|;
      var r := JoinChild(plan, name, c, raw);
      if |raw| < n then r.None? else r.Some? && r.value.1 == raw[n..]
    decreases c
  {
    match c
    case Nil =>
    case Child(v) => JoinConsumes(plan, name, v, raw);
  }

  lemma {:induction false} JoinItemsConsume(plan: Plan, child: Msg, items: seq<Child>, raw: seq<Bytes>)
    ensures
      var n := |TakenItems(plan, child, items)|;
      var r := JoinItems(plan, child, items, raw);
      if |raw| < n then r.None? else r.Some? && r.value.1 == raw[n..]
    decreases items
  {
    if items != [] {
      JoinChildConsumes(plan, child, items[0], raw);
      var r := JoinChild(plan, child, items[0], raw);
      if r.Some? {
        JoinItemsConsume(plan, child, items[1..], r.value.1);
      }
    }
  }

  /** A frame's segments fit a message's header exactly when there are as many as
      were split off; then every one of them is used. */
  lemma JoinAllExactly(plan: Plan, name: Msg, v: Val, raw: seq<Bytes>)
    requires PlanOk(plan)
    ensures JoinAll(plan, name, Header(plan, name, v), raw).Some? <==> |raw| == |Segments(plan, name, v)|
    ensures JoinAll(plan, name, Header(plan, name, v), Segments(plan, name, v)) == Some(v)
  {
    var h, segments := Header(plan, name, v), Segments(plan, name, v);
    JoinOfSplit(plan, name, v, []);
    assert segments + [] == segments;
    JoinConsumes(plan, name, h, segments);
    JoinConsumes(plan, name, h, raw);
    var n := |Segments(plan, name, h)|;
    assert |segments| >= n && segments[n..] == [];
  }
}
