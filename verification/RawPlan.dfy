/**
 Which raw fields travel beside the JSON header, and in what order: the search
 for messages that carry raw fields, and the per-message list of steps that the
 split and join functions are generated from.
 */
module RawPlan {

  import opened Wrappers

  type Msg = string

  datatype Variant = Variant(name: string, tag: string, message: Option<Msg>)

  datatype FieldKind =
    | RawField
    | MessageField(message: Msg)
    | MessageList(message: Msg)
    | OneofField(variants: seq<Variant>)
    | PlainField

  datatype Field = Field(name: string, kind: FieldKind)

  datatype Schema = Schema(messages: map<Msg, seq<Field>>, external: set<Msg>) {
    predicate WellFormed() {
      && (forall m <- messages :: FieldsOk(messages[m]))
      && (forall m <- messages, f <- messages[m], c <- Children(f) :: c in messages)
    }

    predicate Local(m: Msg) {
      m in messages && m !in external
    }

    predicate Below(m: Msg, c: Msg) {
      m in messages && exists f :: f in messages[m] && c in Children(f)
    }

    predicate HasRawField(m: Msg) {
      m in messages && exists f :: f in messages[m] && f.kind.RawField?
    }

    /** Local messages, each holding the next, down to one with a raw field. */
    predicate RawPath(p: seq<Msg>) {
      && p != [] && (forall m <- p :: Local(m)) && HasRawField(p[|p| - 1])
      && forall i {:trigger p[i]} :: 0 <= i < |p| - 1 ==> Below(p[i], p[i + 1])
    }

    ghost predicate Carries(m: Msg) {
      exists p :: RawPath(p) && p[0] == m
    }

    lemma CarriesVia(m: Msg, c: Msg)
      requires Local(m) && Below(m, c) && Carries(c)
      ensures Carries(m)
    {
      var p :| RawPath(p) && p[0] == c;
      var q := [m] + p;
      forall i {:trigger q[i]} | 0 <= i < |q| - 1
        ensures Below(q[i], q[i + 1])
      {
        if i > 0 {
          assert q[i] == p[i - 1] && q[i + 1] == p[i];
        }
      }
      assert RawPath(q) && q[0] == m;
    }

    lemma CarriesOwn(m: Msg)
      requires Local(m) && HasRawField(m)
      ensures Carries(m)
    {
      assert RawPath([m]) && [m][0] == m;
    }

    /** A set of raw-free messages closed under what they hold carries nothing. */
    lemma {:induction false} ClosedCarriesNothing(s: set<Msg>, p: seq<Msg>)
      requires RawPath(p) && p[0] in s
      requires forall m <- s :: !HasRawField(m)
      requires forall m, c :: m in s && Below(m, c) && Local(c) ==> c in s
      ensures false
      decreases |p|
    {
      if |p| > 1 {
        var rest := p[1..];
        assert forall i {:trigger rest[i]} :: 0 <= i < |rest| ==> rest[i] == p[i + 1];
        assert Below(p[0], p[1]) && Local(p[1]);
        ClosedCarriesNothing(s, rest);
      }
    }
  }

  /** Distinct field names; inside a oneof, distinct variant names and tags. */
  predicate FieldsOk(fields: seq<Field>) {
    && (forall i, j :: 0 <= i < j < |fields| ==> fields[i].name != fields[j].name)
    && (forall f <- fields :: f.kind.OneofField? ==> VariantsOk(f.kind.variants))
  }

  predicate VariantsOk(vs: seq<Variant>) {
    forall i, j :: 0 <= i < j < |vs| ==> vs[i].name != vs[j].name && vs[i].tag != vs[j].tag
  }

  /** Messages a field can hold. */
  function Children(f: Field): set<Msg> {
    match f.kind
    case MessageField(m) => {m}
    case MessageList(m) => {m}
    case OneofField(variants) => set v | v in variants && v.message.Some? :: v.message.value
    case RawField => {}
    case PlainField => {}
  }

  // ---- the search ---------------------------------------------------------

  class RawSearch {
    const schema: Schema
    var seen: set<Msg>

    constructor (schema: Schema)
      ensures this.schema == schema && seen == {}
    {
      this.schema := schema;
      seen := {};
    }

    ghost predicate Bounded()
      reads this
    {
      schema.WellFormed() && seen <= schema.messages.Keys && forall x <- seen :: schema.Local(x)
    }

    /** Everything seen since `from` is raw-free, and what it holds is seen too. */
    ghost predicate Clear(from: set<Msg>)
      reads this
    {
      && (forall x <- seen - from :: !schema.HasRawField(x))
      && forall x, c :: x in seen - from && schema.Below(x, c) && schema.Local(c) ==> c in seen
    }

    /** Inside the visit of `m`, which `before` did not hold. */
    ghost predicate Visiting(m: Msg, before: set<Msg>)
      reads this
    {
      Bounded() && schema.Local(m) && m !in before && before + {m} <= seen && Clear(before + {m})
    }

    /** Depth-first for a raw field. Not finding one leaves everything newly seen
        raw-free and closed. */
    method Visit(m: Msg) returns (found: bool)
      requires Bounded() && m in schema.messages
      modifies `seen
      ensures Bounded() && old(seen) <= seen
      ensures found ==> schema.Carries(m)
      ensures !found ==> (schema.Local(m) ==> m in seen) && Clear(old(seen))
      decreases schema.messages.Keys - seen
    {
      if m in seen || m in schema.external {
        return false;
      }
      ghost var before := seen;
      seen := seen + {m};
      var fields := schema.messages[m];
      for i := 0 to |fields|
        invariant Visiting(m, before)
        invariant forall k :: 0 <= k < i ==> !fields[k].kind.RawField?
        invariant forall k, c :: 0 <= k < i && c in Children(fields[k]) && schema.Local(c) ==> c in seen
      {
        assert fields[i] in schema.messages[m];
        if fields[i].kind.RawField? {
          schema.CarriesOwn(m);
          return true;
        }
        found := VisitField(m, fields[i], before);
        if found {
          return;
        }
      }
      found := false;
    }

    method VisitField(m: Msg, f: Field, ghost before: set<Msg>) returns (found: bool)
      requires Visiting(m, before) && f in schema.messages[m]
      modifies `seen
      ensures Bounded() && old(seen) <= seen
      ensures found ==> schema.Carries(m)
      ensures !found ==> Visiting(m, before) && forall c <- Children(f) :: schema.Local(c) ==> c in seen
      decreases schema.messages.Keys - before, 1
    {
      found := false;
      match f.kind
      case MessageField(c) => found := VisitChild(m, f, c, before);
      case MessageList(c) => found := VisitChild(m, f, c, before);
      case OneofField(variants) =>
        for i := 0 to |variants|
          invariant Visiting(m, before) && old(seen) <= seen && !found
          invariant forall k :: 0 <= k < i && variants[k].message.Some? && schema.Local(variants[k].message.value)
                                ==> variants[k].message.value in seen
        {
          if variants[i].message.Some? {
            assert variants[i] in variants;
            found := VisitChild(m, f, variants[i].message.value, before);
            if found {
              return;
            }
          }
        }
      case RawField =>
      case PlainField =>
    }

    method VisitChild(m: Msg, f: Field, c: Msg, ghost before: set<Msg>) returns (found: bool)
      requires Visiting(m, before) && f in schema.messages[m] && c in Children(f)
      modifies `seen
      ensures Bounded() && old(seen) <= seen
      ensures found ==> schema.Carries(m)
      ensures !found ==> Visiting(m, before) && (schema.Local(c) ==> c in seen)
      decreases schema.messages.Keys - before, 0
    {
      assert schema.Below(m, c);
      assert m in schema.messages.Keys - before && m !in schema.messages.Keys - seen;
      found := Visit(c);
      if found {
        schema.CarriesVia(m, c);
      }
    }
  }

  /** Whether anything below a message is sent as a raw segment. */
  method MessageHasRaw(schema: Schema, m: Msg) returns (r: bool)
    requires schema.WellFormed() && m in schema.messages
    ensures r <==> schema.Carries(m)
  {
    var search := new RawSearch(schema);
    r := search.Visit(m);
    if !r && schema.Carries(m) {
      ghost var p :| schema.RawPath(p) && p[0] == m;
      assert schema.Local(p[0]);
      schema.ClosedCarriesNothing(search.seen, p);
    }
  }

  // ---- the steps ----------------------------------------------------------

  /** One step of a message's split and join. A oneof gives one step a variant. */
  datatype Step = Step(field: string, act: Act)

  datatype Act =
    | Take
    | Into(child: Msg)
    | Each(child: Msg)
    | Case(name: string, tag: string, child: Msg)

  ghost function VariantSteps(schema: Schema, field: string, vs: seq<Variant>): seq<Step> {
    if vs == [] then []
    else
      (if vs[0].message.Some? && schema.Carries(vs[0].message.value)
       then [Step(field, Case(vs[0].name, vs[0].tag, vs[0].message.value))] else [])
      + VariantSteps(schema, field, vs[1..])
  }

  ghost function FieldSteps(schema: Schema, f: Field): seq<Step> {
    match f.kind
    case RawField => [Step(f.name, Take)]
    case MessageField(m) => if schema.Carries(m) then [Step(f.name, Into(m))] else []
    case MessageList(m) => if schema.Carries(m) then [Step(f.name, Each(m))] else []
    case OneofField(variants) => VariantSteps(schema, f.name, variants)
    case PlainField => []
  }

  ghost function StepsOf(schema: Schema, fields: seq<Field>): seq<Step> {
    if fields == [] then [] else FieldSteps(schema, fields[0]) + StepsOf(schema, fields[1..])
  }

  /** The list the generators work from. */
  method RawSteps(schema: Schema, m: Msg) returns (steps: seq<Step>)
    requires schema.WellFormed() && m in schema.messages
    ensures steps == StepsOf(schema, schema.messages[m])
  {
    var fields := schema.messages[m];
    steps := [];
    assert fields[0..] == fields;
    for i := 0 to |fields|
      invariant steps + StepsOf(schema, fields[i..]) == StepsOf(schema, fields)
    {
      assert fields[i..][0] == fields[i] && fields[i..][1..] == fields[i + 1..];
      assert fields[i] in schema.messages[m];
      var more := RawFieldSteps(schema, m, fields[i]);
      Associate(steps, more, StepsOf(schema, fields[i + 1..]));
      steps := steps + more;
    }
    assert fields[|fields|..] == [] && steps + [] == steps;
  }

  method RawFieldSteps(schema: Schema, m: Msg, f: Field) returns (steps: seq<Step>)
    requires schema.WellFormed() && m in schema.messages && f in schema.messages[m]
    ensures steps == FieldSteps(schema, f)
  {
    steps := [];
    if f.kind.RawField? {
      steps := [Step(f.name, Take)];
    } else if f.kind.MessageField? || f.kind.MessageList? {
      var c := f.kind.message;
      assert c in Children(f);
      var has := MessageHasRaw(schema, c);
      if has {
        steps := [Step(f.name, if f.kind.MessageField? then Into(c) else Each(c))];
      }
    } else if f.kind.OneofField? {
      steps := RawVariantSteps(schema, m, f);
    }
  }

  method RawVariantSteps(schema: Schema, m: Msg, f: Field) returns (steps: seq<Step>)
    requires schema.WellFormed() && m in schema.messages && f in schema.messages[m] && f.kind.OneofField?
    ensures steps == VariantSteps(schema, f.name, f.kind.variants)
  {
    var vs := f.kind.variants;
    steps := [];
    assert vs[0..] == vs;
    for i := 0 to |vs|
      invariant steps + VariantSteps(schema, f.name, vs[i..]) == VariantSteps(schema, f.name, vs)
    {
      var v := vs[i];
      var step := [];
      assert vs[i..][0] == v && vs[i..][1..] == vs[i + 1..];
      if v.message.Some? {
        assert v in vs && v.message.value in Children(f);
        var has := MessageHasRaw(schema, v.message.value);
        if has {
          step := [Step(f.name, Case(v.name, v.tag, v.message.value))];
        }
      }
      Associate(steps, step, VariantSteps(schema, f.name, vs[i + 1..]));
      steps := steps + step;
    }
    assert vs[|vs|..] == [] && steps + [] == steps;
  }

  lemma Associate(a: seq<Step>, b: seq<Step>, c: seq<Step>)
    ensures a + (b + c) == a + b + c
  {
  }
}
