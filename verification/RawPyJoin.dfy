/**
 Python's join: one `if` per variant, each looking again at the dict as the earlier
 ones left it, and one iterator over the segments. It restores what Go's join
 restores and uses the same segments.
 */
module RawPyJoin {

  import opened Wrappers
  import opened RawFrame
  import opened RawPlan
  import opened RawSplit
  import opened RawTargets
  import opened RawJoin

  /** What a per-variant `if` can see of a field: the tag, and whether there is a
      message under it. */
  function Look(x: FieldVal): Option<(string, bool)> {
    if x.Choice? && x.picked.Some? then Some((x.picked.value.tag, x.picked.value.child.Child?)) else None
  }

  /** Joining a field does not change what the other variants' ifs see. */
  lemma JoinKeepsLook(plan: Plan, s: Step, x: FieldVal, raw: seq<Bytes>)
    requires Applies(s, x)
    ensures JoinField(plan, s, x, raw).Some? ==> Look(JoinField(plan, s, x, raw).value.0) == Look(x)
  {
  }

  /** A step that finds a nil message leaves the field and the segments alone. */
  lemma NilChildJoins(plan: Plan, s: Step, x: FieldVal, raw: seq<Bytes>)
    requires Applies(s, x)
    requires (s.act.Into? && x.child.Nil?) || (s.act.Case? && x.picked.value.child.Nil?)
    ensures JoinField(plan, s, x, raw) == Some((x, raw))
  {
  }

  /** `_ws_join_raw`, on the dict `v` and the segments still in the iterator. */
  method PyJoin(plan: Plan, name: Msg, v: Val, segments: seq<Bytes>) returns (ok: bool, d: Val, rest: seq<Bytes>)
    requires PlanOk(plan) && Typed(plan, name, v)
    ensures ok <==> Join(plan, name, v, segments).Some?
    ensures ok ==> Join(plan, name, v, segments) == Some((d, rest))
    decreases v, 1
  {
    var steps := Steps(plan, name);
    var fields := v.fields;
    d, rest := v, segments;
    assert steps[0..] == steps && Val(v.fields) == v;
    for i := 0 to |steps|
      invariant DictOk(steps, i, v, fields)
      invariant Join(plan, name, v, segments) == JoinSteps(plan, steps[i..], v, fields, rest)
    {
      assert steps[i..][0] == steps[i] && steps[i..][1..] == steps[i + 1..];
      NextIf(plan, name, i, v, fields, rest);
      var r;
      ok, r, rest := PyStep(plan, steps[i], fields[steps[i].field], rest, v);
      if !ok {
        return;
      }
      fields := fields[steps[i].field := r];
    }
    assert steps[|steps|..] == [];
    ok, d := true, Val(fields);
  }

  /** The dict after `i` steps: joined so far, and looking to the ifs as it did. */
  ghost predicate DictOk(steps: seq<Step>, i: nat, v: Val, fields: map<string, FieldVal>)
    requires i <= |steps|
  {
    JoinedSoFar(steps, i, v, fields) && forall k <- fields :: Look(fields[k]) == Look(v.fields[k])
  }

  /** What step `i` finds, and that its result keeps the dict in order. */
  lemma NextIf(plan: Plan, name: Msg, i: nat, v: Val, fields: map<string, FieldVal>, raw: seq<Bytes>)
    requires PlanOk(plan) && Typed(plan, name, v) && i < |Steps(plan, name)| && DictOk(Steps(plan, name), i, v, fields)
    ensures
      var s := Steps(plan, name)[i];
      && s.field in fields && s.field in v.fields
      && (Applies(s, fields[s.field]) <==> Acts(s, v)) && (Acts(s, v) ==> fields[s.field] == v.fields[s.field])
      && PyReady(plan, s, fields[s.field])
      && (!Acts(s, v) ==> fields[s.field := fields[s.field]] == fields && DictOk(Steps(plan, name), i + 1, v, fields))
      && (Acts(s, v) && JoinField(plan, s, v.fields[s.field], raw).Some?
          ==> DictOk(Steps(plan, name), i + 1, v, fields[s.field := JoinField(plan, s, v.fields[s.field], raw).value.0]))
  {
    var steps := Steps(plan, name);
    var s := steps[i];
    assert s in steps && FieldTyped(plan, s, v.fields[s.field]);
    JoinedNext(plan, steps, i, v, fields, raw);
    if !s.act.Case? {
      OnlyStep(steps, i, v, fields);
    }
    SameForTheIf(plan, s, fields[s.field], v.fields[s.field]);
    if Acts(s, v) {
      JoinKeepsLook(plan, s, v.fields[s.field], raw);
    }
  }

  /** A field that is no oneof has one step, so this one finds it untouched. */
  lemma OnlyStep(steps: seq<Step>, i: nat, v: Val, fields: map<string, FieldVal>)
    requires StepsOk(steps) && i < |steps| && JoinedSoFar(steps, i, v, fields) && !steps[i].act.Case? && steps[i].field in fields
    ensures fields[steps[i].field] == v.fields[steps[i].field]
  {
    assert forall j :: 0 <= j < i && steps[j].field == steps[i].field ==> Exclusive(steps[j].act, steps[i].act);
  }

  /** A field an earlier variant has joined looks to this one as it did before. */
  lemma SameForTheIf(plan: Plan, s: Step, found: FieldVal, x: FieldVal)
    requires FieldTyped(plan, s, x) && (Applies(s, found) <==> Applies(s, x)) && (Applies(s, x) || !s.act.Case? ==> found == x)
    requires Look(found) == Look(x)
    ensures PyReady(plan, s, found)
  {
  }

  /** Where the step applies the field is well typed; where the `if` of a variant and
      the step differ, there is no message to join. */
  ghost predicate PyReady(plan: Plan, s: Step, x: FieldVal) {
    && (Applies(s, x) ==> FieldTyped(plan, s, x))
    && (s.act.Case? ==> (PyMatches(s, x) <==> Applies(s, x) && x.picked.value.child.Child?))
    && (!s.act.Case? && !Applies(s, x) ==> x.NilList?)
  }

  /** One step's lines, on the field as the dict has it now. */
  method PyStep(plan: Plan, s: Step, found: FieldVal, segments: seq<Bytes>, ghost v: Val)
    returns (ok: bool, r: FieldVal, rest: seq<Bytes>)
    requires PlanOk(plan) && PyReady(plan, s, found) && (Applies(s, found) ==> s.field in v.fields && found == v.fields[s.field])
    ensures !Applies(s, found) ==> ok && r == found && rest == segments
    ensures Applies(s, found) ==> (ok <==> JoinField(plan, s, found, segments).Some?)
    ensures Applies(s, found) && ok ==> JoinField(plan, s, found, segments) == Some((r, rest))
    decreases v, 0
  {
    if found.NilList? || (s.act.Case? && !PyMatches(s, found)) {
      if Applies(s, found) {
        NilChildJoins(plan, s, found, segments);
      }
      return true, found, segments;
    }
    ok, r, rest := PyJoinField(plan, s, found, segments);
  }

  method PyJoinField(plan: Plan, s: Step, x: FieldVal, segments: seq<Bytes>) returns (ok: bool, r: FieldVal, rest: seq<Bytes>)
    requires PlanOk(plan) && FieldTyped(plan, s, x) && Applies(s, x)
    ensures ok <==> JoinField(plan, s, x, segments).Some?
    ensures ok ==> JoinField(plan, s, x, segments) == Some((r, rest))
    decreases x
  {
    r, rest := x, segments;
    match s.act
    case Take =>
      if |segments| == 0 {
        return false, r, rest;
      }
      ok, r, rest := true, Data(segments[0]), segments[1..];
    case Into(child) =>
      var c;
      ok, c, rest := PyJoinChild(plan, child, x.child, segments);
      r := One(c);
    case Each(child) =>
      var items;
      ok, items, rest := PyJoinItems(plan, child, x.items, segments);
      r := Many(items);
    case Case(_, _, child) =>
      var c;
      ok, c, rest := PyJoinChild(plan, child, x.picked.value.child, segments);
      r := Choice(Some(x.picked.value.(child := c)));
  }

  method PyJoinChild(plan: Plan, name: Msg, c: Child, segments: seq<Bytes>) returns (ok: bool, r: Child, rest: seq<Bytes>)
    requires PlanOk(plan) && (c.Child? ==> Typed(plan, name, c.val))
    ensures ok <==> JoinChild(plan, name, c, segments).Some?
    ensures ok ==> JoinChild(plan, name, c, segments) == Some((r, rest))
    decreases c
  {
    match c
    case Nil => ok, r, rest := true, Nil, segments;
    case Child(v) =>
      var d;
      ok, d, rest := PyJoin(plan, name, v, segments);
      r := Child(d);
  }

  method PyJoinItems(plan: Plan, name: Msg, items: seq<Child>, segments: seq<Bytes>)
    returns (ok: bool, r: seq<Child>, rest: seq<Bytes>)
    requires PlanOk(plan) && forall c <- items :: c.Child? ==> Typed(plan, name, c.val)
    ensures ok <==> JoinItems(plan, name, items, segments).Some?
    ensures ok ==> JoinItems(plan, name, items, segments) == Some((r, rest))
    decreases items
  {
    r, rest := [], segments;
    assert items[0..] == items;
    PrefixedNone(JoinItems(plan, name, items, segments));
    for i := 0 to |items|
      invariant JoinItems(plan, name, items, segments) == Prefixed(r, JoinItems(plan, name, items[i..], rest))
    {
      assert items[i..][0] == items[i] && items[i..][1..] == items[i + 1..];
      var c;
      ok, c, rest := PyJoinChild(plan, name, items[i], rest);
      if !ok {
        return;
      }
      PrefixedOne(r, c, JoinItems(plan, name, items[i + 1..], rest));
      r := r + [c];
    }
    assert items[|items|..] == [] && r + [] == r;
    ok := true;
  }
}
