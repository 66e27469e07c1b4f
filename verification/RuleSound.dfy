/**
 Type soundness. The embedded evaluators are untyped: every operator checks the
 kinds of its operands and fails on the wrong one. A rule that type checks never
 takes those branches, on any message of its schema, NaN included.
 */
module RuleSound {

  import opened Wrappers
  import opened Arith64
  import opened RuleLang
  import opened RuleEval
  import opened RuleTypes
  import opened RuleNative
  import opened RuleAgree

  /** Evaluator values of a type. A message may leave any field out. */
  ghost predicate ValueOf(schema: Schema, t: Type, v: Value)
    decreases v
  {
    match t
    case TBool => v.VBool?
    case TInt => v.VInt? && Fits(v.i)
    case TDouble => v.VDbl?
    case TString => v.VStr? && Fits(|v.s|)
    case TBytes => v.VBytes? && Fits(v.size)
    case TEnum(_) => v.VInt?
    case TList(elem) => v.VList? && Fits(|v.items|) && forall x <- v.items :: ValueOf(schema, elem, x)
    case TMap(elem) => v.VMap? && Fits(|v.entries|) && forall k <- v.entries :: ValueOf(schema, elem, v.entries[k])
    case TMsg(name) => v.VMsg? && forall f <- FieldsOf(schema, name) :: f.name in v.fields ==> ValueOf(schema, TypeOf(f), v.fields[f.name])
  }

  function FieldsOf(schema: Schema, name: string): seq<Field> {
    if name in schema then schema[name] else []
  }

  /** The failures a rule's author is told about; the rest would be bugs. */
  predicate RuleError(why: Why) {
    !why.Mismatch? && !why.NoSlot?
  }

  /** A value of the type, or a failure the documentation names. */
  ghost predicate Sound(schema: Schema, t: Type, r: Outcome) {
    if r.Ok? then ValueOf(schema, t, r.value) else RuleError(r.error)
  }

  ghost predicate EnvOf(schema: Schema, scope: Scope, env: seq<Value>) {
    |env| == |scope| && forall i :: 0 <= i < |scope| ==> ValueOf(schema, scope[i].1, env[i])
  }

  // ---- operators ----------------------------------------------------------

  lemma SelectSound(schema: Schema, name: string, f: Field, v: Value)
    requires WellFormed(schema) && ValueOf(schema, TMsg(name), v) && name in schema && f in schema[name]
    ensures Sound(schema, TypeOf(f), DoSelect(v, f.name, ZeroFor(f)))
  {
    assert f in FieldsOf(schema, name) && FieldOk(schema, f);
    if f.name !in v.fields {
      ZeroSound(schema, f);
    }
  }

  /** A zero belongs to the type of the field it stands for. */
  lemma ZeroSound(schema: Schema, f: Field)
    requires FieldOk(schema, f)
    ensures ValueOf(schema, TypeOf(f), ZeroValue(ZeroFor(f)))
  {
  }

  lemma UnSound(rt: Platform, schema: Schema, u: NodeUn, t: Type, v: Value)
    requires WellFormed(schema) && InferUn(schema, u, t).Some? && ValueOf(schema, t, v)
    ensures Sound(schema, InferUn(schema, u, t).value, LoweredUn(rt, u, v))
  {
    match u
    case Select(f) => SelectSound(schema, t.message, f, v);
    case ToInt(_) => if v.VDbl? && IntSized(v.d) { TruncateFits(v.d); }
    case Has(_) =>
    case Size(_) =>
    case Matches(_) =>
    case ToDouble(_) =>
    case Not =>
    case Neg(_) =>
  }

  lemma {:induction false} InListSound(schema: Schema, t: Type, needle: Value, items: seq<Value>)
    requires Comparable(t) && ValueOf(schema, t, needle) && forall x <- items :: ValueOf(schema, t, x)
    ensures InList(needle, items).Ok?
    decreases |items|
  {
    if items != [] {
      assert ValueOf(schema, t, items[0]);
      InListSound(schema, t, needle, items[1..]);
    }
  }

  lemma CompareSound(schema: Schema, cmp: CmpOp, t: Type, v: Value, w: Value)
    requires InferBin(Compare(cmp), t, t).Some? && ValueOf(schema, t, v) && ValueOf(schema, t, w)
    ensures Sound(schema, TBool, BoolOutcome(CompareValues(cmp, v, w)))
  {
  }

  lemma BinSound(rt: Platform, schema: Schema, b: NodeBin, t: Type, u: Type, v: Value, w: Value)
    requires InferBin(b, t, u).Some? && ValueOf(schema, t, v) && ValueOf(schema, u, w)
    ensures Sound(schema, InferBin(b, t, u).value, Binary(rt, LowerBin(b), v, w))
  {
    if b.Compare? {
      CompareSound(schema, b.cmp, t, v, w);
    } else if b.In? {
      if !b.inMap {
        InListSound(schema, t, v, w.items);
      }
    } else if b.ArithInt? {
      EvalFits(b.iop, v.i, w.i);
    }
  }

  lemma EvalFits(op: IntOp, a: int, b: int)
    requires Fits(a) && Fits(b)
    ensures Arith64.Eval(op, a, b).Ok? ==> Fits(Arith64.Eval(op, a, b).value)
  {
    TargetsAgree(op, a, b);
  }

  // ---- whole trees --------------------------------------------------------

  lemma {:induction false} TreeSound(rt: Platform, schema: Schema, site: Site, scope: Scope, n: Node, root: Value, env: seq<Value>)
    requires WellFormed(schema) && SiteOk(schema, site) && Infer(schema, site, scope, n).Some?
    requires ValueOf(schema, TMsg(site.message), root) && EnvOf(schema, scope, env)
    ensures Sound(schema, Infer(schema, site, scope, n).value, Meaning(rt, Lower(site, Names(scope), n), root, env))
    decreases n, 1
  {
    match n
    case Const(_) =>
    case Ident(name) => IdentSound(rt, schema, site, scope, name, root, env);
    case ListLit(elems) => ListSound(rt, schema, site, scope, elems, Infer(schema, site, scope, elems[0]).value, root, env);
    case Un(u, x) =>
      TreeSound(rt, schema, site, scope, x, root, env);
      UnTree(rt, schema, site, scope, u, x, root, env);
    case Bin(b, l, r) =>
      TreeSound(rt, schema, site, scope, l, root, env);
      TreeSound(rt, schema, site, scope, r, root, env);
      BinTree(rt, schema, site, scope, b, l, r, root, env);
    case Short(_, l, r) =>
      TreeSound(rt, schema, site, scope, l, root, env);
      TreeSound(rt, schema, site, scope, r, root, env);
    case Ternary(c, a, b) =>
      TreeSound(rt, schema, site, scope, c, root, env);
      TreeSound(rt, schema, site, scope, a, root, env);
      TreeSound(rt, schema, site, scope, b, root, env);
    case Quant(_, _, _, _) => QuantSound(rt, schema, site, scope, n, root, env);
  }

  lemma {:induction false} QuantSound(rt: Platform, schema: Schema, site: Site, scope: Scope, n: Node, root: Value, env: seq<Value>)
    requires WellFormed(schema) && SiteOk(schema, site) && n.Quant? && Infer(schema, site, scope, n).Some?
    requires ValueOf(schema, TMsg(site.message), root) && EnvOf(schema, scope, env)
    ensures Sound(schema, Infer(schema, site, scope, n).value, Meaning(rt, Lower(site, Names(scope), n), root, env))
    decreases n, 0
  {
    TreeSound(rt, schema, site, scope, n.range, root, env);
    var v := Meaning(rt, Lower(site, Names(scope), n.range), root, env);
    if v.Ok? {
      LoopSound(rt, schema, site, scope, n.all, n.name, Infer(schema, site, scope, n.range).value.elem, v.value.items, n.body, root, env);
    }
  }

  lemma IdentSound(rt: Platform, schema: Schema, site: Site, scope: Scope, name: string, root: Value, env: seq<Value>)
    requires WellFormed(schema) && SiteOk(schema, site) && InferIdent(site, scope, name).Some?
    requires ValueOf(schema, TMsg(site.message), root) && EnvOf(schema, scope, env)
    ensures Sound(schema, InferIdent(site, scope, name).value, Meaning(rt, LowerIdent(site, Names(scope), name), root, env))
  {
    if Find(Names(scope), name).None? && name == "value" && site.field.Some? {
      SelectSound(schema, site.message, site.field.value, root);
      assert Meaning(rt, OSelf, root, env) == Ok(root);
    }
  }

  lemma UnTree(rt: Platform, schema: Schema, site: Site, scope: Scope, u: NodeUn, x: Node, root: Value, env: seq<Value>)
    requires WellFormed(schema) && Infer(schema, site, scope, Un(u, x)).Some?
    requires Sound(schema, Infer(schema, site, scope, x).value, Meaning(rt, Lower(site, Names(scope), x), root, env))
    ensures Sound(schema, Infer(schema, site, scope, Un(u, x)).value, Meaning(rt, Lower(site, Names(scope), Un(u, x)), root, env))
  {
    var v := Meaning(rt, Lower(site, Names(scope), x), root, env);
    if v.Ok? {
      UnSound(rt, schema, u, Infer(schema, site, scope, x).value, v.value);
      assert Meaning(rt, Lower(site, Names(scope), Un(u, x)), root, env) == LoweredUn(rt, u, v.value);
    }
  }

  lemma BinTree(rt: Platform, schema: Schema, site: Site, scope: Scope, b: NodeBin, l: Node, r: Node, root: Value, env: seq<Value>)
    requires Infer(schema, site, scope, Bin(b, l, r)).Some?
    requires Sound(schema, Infer(schema, site, scope, l).value, Meaning(rt, Lower(site, Names(scope), l), root, env))
    requires Sound(schema, Infer(schema, site, scope, r).value, Meaning(rt, Lower(site, Names(scope), r), root, env))
    ensures Sound(schema, Infer(schema, site, scope, Bin(b, l, r)).value, Meaning(rt, Lower(site, Names(scope), Bin(b, l, r)), root, env))
  {
    var v, w := Meaning(rt, Lower(site, Names(scope), l), root, env), Meaning(rt, Lower(site, Names(scope), r), root, env);
    if v.Ok? && w.Ok? {
      BinSound(rt, schema, b, Infer(schema, site, scope, l).value, Infer(schema, site, scope, r).value, v.value, w.value);
    }
  }

  lemma {:induction false} ListSound(
    rt: Platform, schema: Schema, site: Site, scope: Scope, ns: seq<Node>, t: Type, root: Value, env: seq<Value>)
    requires WellFormed(schema) && SiteOk(schema, site) && InferAll(schema, site, scope, ns, t)
    requires ValueOf(schema, TMsg(site.message), root) && EnvOf(schema, scope, env)
    ensures
      var r := MeaningAll(rt, LowerAll(site, Names(scope), ns), root, env);
      if r.Ok? then |r.value| == |ns| && forall v <- r.value :: ValueOf(schema, t, v) else RuleError(r.error)
    decreases ns, 0
  {
    if ns != [] {
      TreeSound(rt, schema, site, scope, ns[0], root, env);
      ListSound(rt, schema, site, scope, ns[1..], t, root, env);
      assert LowerAll(site, Names(scope), ns)[1..] == LowerAll(site, Names(scope), ns[1..]);
    }
  }

  lemma {:induction false} LoopSound(
    rt: Platform, schema: Schema, site: Site, scope: Scope, all: bool, name: string, elem: Type, items: seq<Value>, body: Node,
    root: Value, env: seq<Value>)
    requires WellFormed(schema) && SiteOk(schema, site) && Infer(schema, site, scope + [(name, elem)], body) == Some(TBool)
    requires forall x <- items :: ValueOf(schema, elem, x)
    requires ValueOf(schema, TMsg(site.message), root) && EnvOf(schema, scope, env)
    ensures Sound(schema, TBool, MeaningQuant(rt, all, items, Lower(site, Names(scope) + [name], body), root, env))
    decreases body, 2, |items|
  {
    if items != [] {
      assert Names(scope + [(name, elem)]) == Names(scope) + [name];
      TreeSound(rt, schema, site, scope + [(name, elem)], body, root, env + [items[0]]);
      LoopSound(rt, schema, site, scope, all, name, elem, items[1..], body, root, env);
    }
  }

  /** A checked rule, on any message of its schema, yields a bool or fails for one
      of the documented reasons; the runtimes' kind checks never fire. */
  lemma RuleYieldsBool(rt: Platform, schema: Schema, site: Site, n: Node, root: Value)
    requires CheckedRule(schema, site, n) && ValueOf(schema, TMsg(site.message), root)
    ensures
      var r := Meaning(rt, Lower(site, [], n), root, []);
      if r.Ok? then r == Ok(VBool(Holds(rt, Lower(site, [], n), root))) else RuleError(r.error) && !Holds(rt, Lower(site, [], n), root)
  {
    assert Names([]) == [];
    TreeSound(rt, schema, site, [], n, root, []);
  }

  // ---- converted messages -------------------------------------------------

  /** What conversion makes of a stored element is a value of its type. */
  lemma {:induction false} ElemConverts(lim: Limits, t: FieldType, v: GoVal)
    requires WellFormed(lim.schema) && ElemOk(lim, t, v)
    ensures ValueOf(lim.schema, BaseType(t), Conv(v))
    decreases v, 0
  {
    if t.FMessage? && v.target.Some? {
      StructConverts(lim, t.message, v.target.value);
    }
  }

  lemma {:induction false} StoredConverts(lim: Limits, f: Field, v: GoVal)
    requires WellFormed(lim.schema) && FieldOk(lim.schema, f) && StoredOk(lim, f, v) && (v == GRef(None) ==> f.typ.FMessage?)
    ensures ValueOf(lim.schema, TypeOf(f), Conv(v))
    decreases v, 1
  {
    if f.repeated {
      forall i | 0 <= i < |v.items|
        ensures ValueOf(lim.schema, BaseType(f.typ), Conv(v.items[i]))
      {
        ElemConverts(lim, f.typ, v.items[i]);
      }
    } else if f.typ.FMap? {
      MapConverts(lim, f.typ.elem, v);
    } else if f.optional && !f.typ.FMessage? {
      ElemConverts(lim, f.typ, v.target.value);
    } else {
      ElemConverts(lim, f.typ, v);
    }
  }

  lemma {:induction false} MapConverts(lim: Limits, t: FieldType, v: GoVal)
    requires WellFormed(lim.schema) && v.GMap? && Fits(|v.entries|) && forall k <- v.entries :: ElemOk(lim, t, v.entries[k])
    ensures ValueOf(lim.schema, TMap(BaseType(t)), Conv(v))
    decreases v, 0
  {
    var converted := ConvEntries(v);
    assert converted.Keys == v.entries.Keys;
    assert |converted.Keys| == |v.entries.Keys|;
    forall k | k in v.entries
      ensures ValueOf(lim.schema, BaseType(t), Conv(v.entries[k]))
    {
      ElemConverts(lim, t, v.entries[k]);
    }
  }

  lemma {:induction false} StructConverts(lim: Limits, name: string, v: GoVal)
    requires WellFormed(lim.schema) && StructOk(lim, name, v)
    ensures ValueOf(lim.schema, TMsg(name), Conv(v))
    decreases v, 2
  {
    forall f | f in lim.schema[name] && v.fields[f.name] != GRef(None)
      ensures ValueOf(lim.schema, TypeOf(f), Conv(v.fields[f.name]))
    {
      StoredConverts(lim, f, v.fields[f.name]);
    }
  }

  /** All of it for a Go message: the shared-slot evaluator run on the converted
      message returns the verdict of the native code on the original, unless it
      fails on ordering a NaN that the native code says yes to. */
  method EvaluateConverted(rt: Platform, schema: Schema, site: Site, n: Node, m: GoVal) returns (holds: bool)
    requires CheckedRule(schema, site, n) && HasType(Limits(schema, true), TMsg(site.message), m)
    ensures
      GoHolds(rt, Compile(site, [], n), m) == Ok(holds)
      <==> !(Meaning(rt, Lower(site, [], n), Conv(m), []) == Err(Unordered) && GoHolds(rt, Compile(site, [], n), m) == Ok(true))
  {
    LowerIsWellScoped(site, [], n);
    SameVerdict(rt, schema, site, n, m);
    holds := CheckRule(rt, Lower(site, [], n), Conv(m));
  }
}
