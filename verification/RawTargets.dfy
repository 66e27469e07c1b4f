/**
 The plan built from a schema: it is a plan the split and join work for, it leaves
 no raw bytes in any header, and Python's chain of per-variant ifs follows it to
 the same header and the same segment order.
 */
module RawTargets {

  import opened Wrappers
  import opened RawFrame
  import opened RawPlan
  import opened RawSplit

  // ---- plans of schemas ---------------------------------------------------

  ghost function PlanOf(schema: Schema): Plan {
    map m | m in schema.messages :: StepsOf(schema, schema.messages[m])
  }

  lemma {:induction false} VariantStepsFrom(schema: Schema, field: string, vs: seq<Variant>)
    ensures forall s <- VariantSteps(schema, field, vs) ::
              s.field == field && s.act.Case? && exists v :: v in vs && v.name == s.act.name && v.tag == s.act.tag
    decreases |vs|
  {
    if vs != [] {
      VariantStepsFrom(schema, field, vs[1..]);
      assert forall v <- vs[1..] :: v in vs;
      assert vs[0] in vs;
    }
  }

  lemma {:induction false} VariantStepsOk(schema: Schema, field: string, vs: seq<Variant>)
    requires VariantsOk(vs)
    ensures StepsOk(VariantSteps(schema, field, vs))
    decreases |vs|
  {
    if vs != [] {
      var rest := VariantSteps(schema, field, vs[1..]);
      VariantStepsOk(schema, field, vs[1..]);
      VariantStepsFrom(schema, field, vs[1..]);
      var steps := VariantSteps(schema, field, vs);
      if steps != rest {
        forall r | r in rest
          ensures Exclusive(steps[0].act, r.act)
        {
          var v :| v in vs[1..] && v.name == r.act.name && v.tag == r.act.tag;
          var k :| 0 <= k < |vs[1..]| && vs[1..][k] == v;
          assert vs[k + 1] == v;
        }
        ConsOk(steps[0], rest);
      }
    }
  }

  lemma ConsOk(s: Step, rest: seq<Step>)
    requires StepsOk(rest) && forall r <- rest :: s.field == r.field ==> Exclusive(s.act, r.act)
    ensures StepsOk([s] + rest)
  {
    var steps := [s] + rest;
    forall i, j | 0 <= i < j < |steps| && steps[i].field == steps[j].field
      ensures Exclusive(steps[i].act, steps[j].act)
    {
      assert steps[j] == rest[j - 1] && (i > 0 ==> steps[i] == rest[i - 1]);
    }
  }

  lemma FieldStepsOk(schema: Schema, f: Field)
    requires f.kind.OneofField? ==> VariantsOk(f.kind.variants)
    ensures StepsOk(FieldSteps(schema, f)) && forall s <- FieldSteps(schema, f) :: s.field == f.name
  {
    if f.kind.OneofField? {
      VariantStepsOk(schema, f.name, f.kind.variants);
      VariantStepsFrom(schema, f.name, f.kind.variants);
    }
  }

  lemma {:induction false} StepsOfFrom(schema: Schema, fields: seq<Field>)
    requires FieldsOk(fields)
    ensures forall s <- StepsOf(schema, fields) :: exists f :: f in fields && f.name == s.field
    decreases |fields|
  {
    if fields != [] {
      assert forall f <- fields[1..] :: f in fields;
      StepsOfFrom(schema, fields[1..]);
      FieldStepsOk(schema, fields[0]);
      assert fields[0] in fields;
    }
  }

  /** A step for every raw field, one per field or per variant, never two alike. */
  lemma {:induction false} StepsOfOk(schema: Schema, fields: seq<Field>)
    requires FieldsOk(fields)
    ensures StepsOk(StepsOf(schema, fields))
    decreases |fields|
  {
    if fields != [] {
      var first, rest := FieldSteps(schema, fields[0]), StepsOf(schema, fields[1..]);
      assert forall f <- fields[1..] :: f in fields;
      FieldStepsOk(schema, fields[0]);
      StepsOfOk(schema, fields[1..]);
      StepsOfFrom(schema, fields[1..]);
      forall i, j | 0 <= i < |first| && 0 <= j < |rest|
        ensures first[i].field != rest[j].field
      {
        assert first[i] in first && rest[j] in rest;
        var f :| f in fields[1..] && f.name == rest[j].field;
        var k :| 0 <= k < |fields[1..]| && fields[1..][k] == f;
        assert fields[k + 1] == f;
      }
    }
  }

  lemma PlanOfOk(schema: Schema)
    requires schema.WellFormed()
    ensures PlanOk(PlanOf(schema))
  {
    forall m | m in schema.messages
      ensures StepsOk(PlanOf(schema)[m])
    {
      StepsOfOk(schema, schema.messages[m]);
    }
  }

  // ---- the header is clean ------------------------------------------------

  /** No raw field below a local message holds any bytes. */
  ghost predicate Clean(schema: Schema, name: Msg, v: Val)
    decreases v
  {
    schema.Local(name) ==> forall f <- schema.messages[name] :: f.name in v.fields ==> FieldClean(schema, f.kind, v.fields[f.name])
  }

  ghost predicate FieldClean(schema: Schema, kind: FieldKind, x: FieldVal)
    decreases x
  {
    match kind
    case RawField => x.Data? ==> x.bytes == []
    case MessageField(m) => x.One? ==> ChildClean(schema, m, x.child)
    case MessageList(m) => x.Many? ==> forall c <- x.items :: ChildClean(schema, m, c)
    case OneofField(variants) =>
      x.Choice? && x.picked.Some? ==>
        forall v <- variants :: v.name == x.picked.value.name && v.message.Some? ==> ChildClean(schema, v.message.value, x.picked.value.child)
    case PlainField => true
  }

  ghost predicate ChildClean(schema: Schema, m: Msg, c: Child)
    decreases c
  {
    c.Child? ==> Clean(schema, m, c.val)
  }

  /** Below a message that carries nothing there is nothing to clean. */
  lemma {:induction false} NothingCarried(schema: Schema, name: Msg, v: Val)
    requires !schema.Carries(name)
    ensures Clean(schema, name, v)
    decreases v
  {
    if schema.Local(name) {
      forall f | f in schema.messages[name] && f.name in v.fields
        ensures FieldClean(schema, f.kind, v.fields[f.name])
      {
        NothingCarriedField(schema, name, f, v.fields[f.name]);
      }
    }
  }

  lemma {:induction false} NothingCarriedField(schema: Schema, name: Msg, f: Field, x: FieldVal)
    requires schema.Local(name) && f in schema.messages[name] && !schema.Carries(name)
    ensures FieldClean(schema, f.kind, x)
    decreases x
  {
    forall c | c in Children(f)
      ensures !schema.Carries(c)
    {
      if schema.Carries(c) {
        assert schema.Below(name, c);
        schema.CarriesVia(name, c);
      }
    }
    match f.kind
    case RawField => schema.CarriesOwn(name);
    case MessageField(m) => if x.One? { NothingCarriedChild(schema, m, x.child); }
    case MessageList(m) =>
      if x.Many? {
        forall c | c in x.items
          ensures ChildClean(schema, m, c)
        {
          NothingCarriedChild(schema, m, c);
        }
      }
    case OneofField(variants) =>
      if x.Choice? && x.picked.Some? {
        forall v | v in variants && v.message.Some?
          ensures ChildClean(schema, v.message.value, x.picked.value.child)
        {
          assert v.message.value in Children(f);
          NothingCarriedChild(schema, v.message.value, x.picked.value.child);
        }
      }
    case PlainField =>
  }

  lemma {:induction false} NothingCarriedChild(schema: Schema, m: Msg, c: Child)
    requires !schema.Carries(m)
    ensures ChildClean(schema, m, c)
    decreases c
  {
    if c.Child? {
      NothingCarried(schema, m, c.val);
    }
  }

  lemma {:induction false} StepsOfIncludes(schema: Schema, fields: seq<Field>, f: Field)
    requires f in fields
    ensures forall s <- FieldSteps(schema, f) :: s in StepsOf(schema, fields)
    decreases |fields|
  {
    if fields[0] != f {
      StepsOfIncludes(schema, fields[1..], f);
    }
  }

  lemma {:induction false} VariantStepsInclude(schema: Schema, field: string, vs: seq<Variant>, v: Variant)
    requires v in vs && v.message.Some? && schema.Carries(v.message.value)
    ensures Step(field, Case(v.name, v.tag, v.message.value)) in VariantSteps(schema, field, vs)
    decreases |vs|
  {
    if vs[0] != v {
      VariantStepsInclude(schema, field, vs[1..], v);
    }
  }

  /** A field's own step, when it applies, makes the header's field. */
  lemma OwnStep(schema: Schema, name: Msg, f: Field, s: Step, x: FieldVal)
    requires schema.WellFormed() && name in schema.messages && f in schema.messages[name]
    requires s in FieldSteps(schema, f) && s.field == f.name && Applies(s, x)
    ensures HeaderField(PlanOf(schema), Steps(PlanOf(schema), name), f.name, x) == Blanked(PlanOf(schema), s, x)
  {
    PlanOfOk(schema);
    StepsOfIncludes(schema, schema.messages[name], f);
    var steps := Steps(PlanOf(schema), name);
    var i :| 0 <= i < |steps| && steps[i] == s;
    HeaderFieldIs(PlanOf(schema), steps, i, x);
  }

  /** Splitting takes every raw byte out of the header, however deep. */
  lemma {:induction false} HeaderIsClean(schema: Schema, name: Msg, v: Val)
    requires schema.WellFormed()
    ensures Clean(schema, name, Header(PlanOf(schema), name, v))
    decreases v, 1
  {
    var plan := PlanOf(schema);
    if schema.Local(name) {
      forall f | f in schema.messages[name] && f.name in v.fields
        ensures FieldClean(schema, f.kind, Header(plan, name, v).fields[f.name])
      {
        HeaderFieldIsClean(schema, name, f, v.fields[f.name]);
      }
    }
  }

  lemma {:induction false} HeaderFieldIsClean(schema: Schema, name: Msg, f: Field, x: FieldVal)
    requires schema.WellFormed() && schema.Local(name) && f in schema.messages[name]
    ensures FieldClean(schema, f.kind, HeaderField(PlanOf(schema), Steps(PlanOf(schema), name), f.name, x))
    decreases x, 1
  {
    var plan := PlanOf(schema);
    var steps := Steps(plan, name);
    var h := HeaderField(plan, steps, f.name, x);
    HeaderFieldApplies(plan, steps, f.name, x, Step(f.name, Take));
    match f.kind
    case RawField =>
      if x.Data? {
        OwnStep(schema, name, f, Step(f.name, Take), x);
      }
    case MessageField(m) =>
      HeaderFieldApplies(plan, steps, f.name, x, Step(f.name, Into(m)));
      if x.One? {
        if schema.Carries(m) {
          OwnStep(schema, name, f, Step(f.name, Into(m)), x);
          HeaderChildIsClean(schema, m, x.child);
        } else {
          NothingCarriedChild(schema, m, h.child);
        }
      }
    case MessageList(m) => ListIsClean(schema, name, f, m, x);
    case OneofField(variants) => OneofIsClean(schema, name, f, x);
    case PlainField =>
  }

  lemma {:induction false} ListIsClean(schema: Schema, name: Msg, f: Field, m: Msg, x: FieldVal)
    requires schema.WellFormed() && schema.Local(name) && f in schema.messages[name] && f.kind == MessageList(m)
    ensures
      var h := HeaderField(PlanOf(schema), Steps(PlanOf(schema), name), f.name, x);
      h.Many? ==> forall c <- h.items :: ChildClean(schema, m, c)
    decreases x, 0
  {
    var plan := PlanOf(schema);
    var h := HeaderField(plan, Steps(plan, name), f.name, x);
    if h.Many? {
      if !schema.Carries(m) {
        forall c | c in h.items
          ensures ChildClean(schema, m, c)
        {
          NothingCarriedChild(schema, m, c);
        }
      } else {
        HeaderFieldApplies(plan, Steps(plan, name), f.name, x, Step(f.name, Each(m)));
        OwnStep(schema, name, f, Step(f.name, Each(m)), x);
        ItemsAreClean(schema, m, x.items);
      }
    }
  }

  lemma {:induction false} ItemsAreClean(schema: Schema, m: Msg, items: seq<Child>)
    requires schema.WellFormed()
    ensures forall c <- BlankedItems(PlanOf(schema), m, items) :: ChildClean(schema, m, c)
    decreases items
  {
    if items != [] {
      HeaderChildIsClean(schema, m, items[0]);
      ItemsAreClean(schema, m, items[1..]);
    }
  }

  lemma {:induction false} OneofIsClean(schema: Schema, name: Msg, f: Field, x: FieldVal)
    requires schema.WellFormed() && schema.Local(name) && f in schema.messages[name] && f.kind.OneofField?
    ensures FieldClean(schema, f.kind, HeaderField(PlanOf(schema), Steps(PlanOf(schema), name), f.name, x))
    decreases x, 0
  {
    var plan := PlanOf(schema);
    var h := HeaderField(plan, Steps(plan, name), f.name, x);
    if h.Choice? && h.picked.Some? {
      forall v | v in f.kind.variants && v.name == h.picked.value.name && v.message.Some?
        ensures ChildClean(schema, v.message.value, h.picked.value.child)
      {
        var m := v.message.value;
        if schema.Carries(m) {
          var s := Step(f.name, Case(v.name, v.tag, m));
          VariantStepsInclude(schema, f.name, f.kind.variants, v);
          HeaderFieldApplies(plan, Steps(plan, name), f.name, x, s);
          OwnStep(schema, name, f, s, x);
          HeaderChildIsClean(schema, m, x.picked.value.child);
        } else {
          NothingCarriedChild(schema, m, h.picked.value.child);
        }
      }
    }
  }

  lemma {:induction false} HeaderChildIsClean(schema: Schema, m: Msg, c: Child)
    requires schema.WellFormed()
    ensures ChildClean(schema, m, BlankedChild(PlanOf(schema), m, c))
    decreases c
  {
    if c.Child? {
      HeaderIsClean(schema, m, c.val);
    }
  }

  // ---- halfway through the steps ------------------------------------------

  /** The message's fields, those the first `i` steps act on as in the header. */
  ghost function Partly(plan: Plan, name: Msg, v: Val, i: nat): map<string, FieldVal>
    requires i <= |Steps(plan, name)|
  {
    map f | f in v.fields :: PartlyField(plan, name, f, v.fields[f], i)
  }

  ghost function PartlyField(plan: Plan, name: Msg, f: string, x: FieldVal, i: nat): FieldVal
    requires i <= |Steps(plan, name)|
  {
    if exists j :: 0 <= j < i && Steps(plan, name)[j].field == f && Applies(Steps(plan, name)[j], x)
    then HeaderField(plan, Steps(plan, name), f, x) else x
  }

  lemma PartlyNone(plan: Plan, name: Msg, v: Val)
    ensures Partly(plan, name, v, 0) == v.fields
  {
  }

  lemma PartlyAll(plan: Plan, name: Msg, v: Val)
    ensures Partly(plan, name, v, |Steps(plan, name)|) == Header(plan, name, v).fields
  {
    var steps := Steps(plan, name);
    forall f | f in v.fields
      ensures PartlyField(plan, name, f, v.fields[f], |steps|) == HeaderField(plan, steps, f, v.fields[f])
    {
      if !exists j :: 0 <= j < |steps| && steps[j].field == f && Applies(steps[j], v.fields[f]) {
        HeaderFieldKept(plan, steps, f, v.fields[f]);
      }
    }
  }

  /** What step `i` finds in a field, and what it makes of it. */
  lemma PartlyNext(plan: Plan, name: Msg, v: Val, i: nat)
    requires PlanOk(plan) && i < |Steps(plan, name)|
    ensures
      var s := Steps(plan, name)[i];
      && (s.field in v.fields ==> (Applies(s, Partly(plan, name, v, i)[s.field]) <==> Applies(s, v.fields[s.field])))
      && (Acts(s, v) ==> Partly(plan, name, v, i)[s.field] == v.fields[s.field])
      && Partly(plan, name, v, i + 1)
         == if Acts(s, v) then Partly(plan, name, v, i)[s.field := Blanked(plan, s, v.fields[s.field])] else Partly(plan, name, v, i)
  {
    var steps := Steps(plan, name);
    var s := steps[i];
    if s.field in v.fields {
      var x := v.fields[s.field];
      HeaderFieldApplies(plan, steps, s.field, x, s);
      if Applies(s, x) {
        HeaderFieldIs(plan, steps, i, x);
        forall j | 0 <= j < i && steps[j].field == s.field
          ensures !Applies(steps[j], x)
        {
          assert Exclusive(steps[j].act, s.act);
        }
      }
    }
  }

  // ---- Python -------------------------------------------------------------

  /** A oneof is matched by its tag, and one `if` per variant looks again at what
      the last one stored. */
  predicate PyMatches(s: Step, x: FieldVal)
    requires s.act.Case?
  {
    x.Choice? && x.picked.Some? && x.picked.value.tag == s.act.tag && x.picked.value.child.Child?
  }

  /** `_ws_split_raw`: copies the dict, replaces entries of the copy, appends to raw. */
  method PySplit(plan: Plan, name: Msg, v: Val, before: seq<Bytes>) returns (h: Val, raw: seq<Bytes>)
    requires PlanOk(plan) && Typed(plan, name, v)
    ensures h == Header(plan, name, v) && raw == before + Segments(plan, name, v)
    decreases v, 1
  {
    var steps := Steps(plan, name);
    var d := v.fields;
    raw := before;
    PartlyNone(plan, name, v);
    assert steps[0..] == steps;
    for i := 0 to |steps|
      invariant d == Partly(plan, name, v, i)
      invariant raw + StepSegments(plan, steps[i..], v) == before + Segments(plan, name, v)
    {
      var s := steps[i];
      assert s in steps && FieldTyped(plan, s, v.fields[s.field]);
      assert steps[i..][0] == s && steps[i..][1..] == steps[i + 1..];
      PartlyNext(plan, name, v, i);
      ghost var was, x, rest := raw, v.fields[s.field], StepSegments(plan, steps[i + 1..], v);
      var found := d[s.field];
      if s.act.Case? {
        PartlyKeepsTag(plan, name, s, s.field, x, i);
        if PyMatches(s, found) {
          var child;
          child, raw := PySplitChild(plan, s.act.child, found.picked.value.child, raw);
          d := d[s.field := Choice(Some(found.picked.value.(child := child)))];
        } else if Applies(s, x) {
          assert x.picked.value.child.Nil? && Blanked(plan, s, x) == x && Taken(plan, s, x) == [];
          assert d[s.field := x] == d;
        }
      } else if s.act.Take? {
        raw := raw + [found.bytes];
        d := d[s.field := Data([])];
      } else if s.act.Into? {
        var child;
        child, raw := PySplitChild(plan, s.act.child, found.child, raw);
        d := d[s.field := One(child)];
      } else if found.Many? {
        var items;
        items, raw := PySplitItems(plan, s.act.child, found.items, raw);
        d := d[s.field := Many(items)];
      }
      Continue(was, raw, if Applies(s, x) then Taken(plan, s, x) else [], rest);
    }
    assert steps[|steps|..] == [] && raw + [] == raw;
    PartlyAll(plan, name, v);
    h := Val(d);
  }

  lemma Continue(was: seq<Bytes>, now: seq<Bytes>, taken: seq<Bytes>, rest: seq<Bytes>)
    requires now == was + taken
    ensures was + (taken + rest) == now + rest
  {
  }

  lemma ContinueItems(was: seq<Child>, item: Child, rest: seq<Child>)
    ensures was + ([item] + rest) == was + [item] + rest
  {
  }

  lemma PartlyKeepsTag(plan: Plan, name: Msg, s: Step, f: string, x: FieldVal, i: nat)
    requires i <= |Steps(plan, name)| && s.act.Case?
    ensures PyMatches(s, PartlyField(plan, name, f, x, i)) <==> PyMatches(s, x)
  {
    HeaderKeepsTag(plan, Steps(plan, name), s, f, x);
  }

  lemma {:induction false} HeaderKeepsTag(plan: Plan, steps: seq<Step>, s: Step, f: string, x: FieldVal)
    requires s.act.Case?
    ensures PyMatches(s, HeaderField(plan, steps, f, x)) <==> PyMatches(s, x)
    decreases |steps|
  {
    if steps != [] {
      if steps[0].field == f && Applies(steps[0], x) {
        if x.Choice? {
          assert BlankedChild(plan, steps[0].act.child, x.picked.value.child).Child? <==> x.picked.value.child.Child?;
        }
      } else {
        HeaderKeepsTag(plan, steps[1..], s, f, x);
      }
    }
  }

  method PySplitChild(plan: Plan, name: Msg, c: Child, before: seq<Bytes>) returns (b: Child, raw: seq<Bytes>)
    requires PlanOk(plan) && (c.Child? ==> Typed(plan, name, c.val))
    ensures b == BlankedChild(plan, name, c) && raw == before + TakenChild(plan, name, c)
    decreases c
  {
    match c
    case Nil =>
      b, raw := Nil, before;
      assert before + [] == before;
    case Child(v) =>
      var h;
      h, raw := PySplit(plan, name, v, before);
      b := Child(h);
  }

  method PySplitItems(plan: Plan, name: Msg, items: seq<Child>, before: seq<Bytes>) returns (b: seq<Child>, raw: seq<Bytes>)
    requires PlanOk(plan) && forall c <- items :: c.Child? ==> Typed(plan, name, c.val)
    ensures b == BlankedItems(plan, name, items) && raw == before + TakenItems(plan, name, items)
    decreases items
  {
    b, raw := [], before;
    assert items[0..] == items;
    for i := 0 to |items|
      invariant b + BlankedItems(plan, name, items[i..]) == BlankedItems(plan, name, items)
      invariant raw + TakenItems(plan, name, items[i..]) == before + TakenItems(plan, name, items)
    {
      assert items[i..][0] == items[i] && items[i..][1..] == items[i + 1..];
      ghost var was := raw;
      var child;
      child, raw := PySplitChild(plan, name, items[i], raw);
      Continue(was, raw, TakenChild(plan, name, items[i]), TakenItems(plan, name, items[i + 1..]));
      ContinueItems(b, child, BlankedItems(plan, name, items[i + 1..]));
      b := b + [child];
    }
    assert items[|items|..] == [] && b + [] == b && raw + [] == raw;
  }
}
