/**
 The native Go code run on the Go message against the op tree evaluated on the
 converted message, whatever is unset, nil, shadowed or NaN. The native code never
 crashes, and the two agree unless the tree fails on ordering a NaN.
 */
module RuleAgree {

  import opened Wrappers
  import opened Arith64
  import opened RuleLang
  import opened RuleEval
  import opened RuleTypes
  import opened RuleNative

  // ---- conversion to evaluator values -------------------------------------

  /** A Go value as the evaluators see it: a nil pointer field is left out of its
      message, and a nil message is the empty one. */
  function Conv(v: GoVal): Value
    decreases v, 1
  {
    match v
    case GBool(b) => VBool(b)
    case GInt32(i) => VInt(i)
    case GUint32(i) => VInt(i)
    case GInt64(i) => VInt(i)
    case GEnum(i) => VInt(i)
    case GFloat32(d) => VDbl(d)
    case GFloat64(d) => VDbl(d)
    case GStr(s) => VStr(s)
    case GBytes(n) => VBytes(n)
    case GSlice(items) => VList(seq(|items|, i requires 0 <= i < |items| => Conv(items[i])))
    case GMap(_) => VMap(ConvEntries(v))
    case GStruct(fields) => VMsg(map k | k in fields && fields[k] != GRef(None) :: Conv(fields[k]))
    case GRef(None) => VMsg(map[])
    case GRef(Some(target)) => Conv(target)
  }

  function ConvEntries(v: GoVal): map<string, Value>
    requires v.GMap?
    decreases v, 0
  {
    map k | k in v.entries :: Conv(v.entries[k])
  }

  /** A length; Go's `len` is a 64-bit integer. */
  function SizeOf(v: GoVal): int {
    match v
    case GStr(s) => |s|
    case GBytes(n) => n
    case GSlice(items) => |items|
    case GMap(entries) => |entries|
    case _ => 0
  }

  // ---- well-formed Go messages --------------------------------------------

  /** A schema, and whether its messages may hold a NaN. */
  datatype Limits = Limits(schema: Schema, nan: bool)

  /** Where there is to be no NaN, rounding an integer must not make one. */
  ghost predicate RoundsWithin(rt: Platform, lim: Limits) {
    lim.nan || PlatformOk(rt)
  }

  /** A stored value of a field's element type. */
  ghost predicate ElemOk(lim: Limits, t: FieldType, v: GoVal)
    decreases v, 0
  {
    match t
    case FScalar(SString) => v.GStr? && Fits(SizeOf(v))
    case FScalar(SBool) => v.GBool?
    case FScalar(SInt32) => v.GInt32? && Fits(v.i)
    case FScalar(SUint32) => v.GUint32? && Fits(v.i)
    case FScalar(SInt64) => v.GInt64? && Fits(v.i)
    case FScalar(SFloat32) => v.GFloat32? && (v.d.NaN? ==> lim.nan)
    case FScalar(SFloat64) => v.GFloat64? && (v.d.NaN? ==> lim.nan)
    case FScalar(SBytes) => v.GBytes? && Fits(SizeOf(v))
    case FEnum(_) => v.GEnum?
    case FMessage(name) => v.GRef? && (v.target.Some? ==> StructOk(lim, name, v.target.value))
    case FMap(_) => false
  }

  ghost predicate StoredOk(lim: Limits, f: Field, v: GoVal)
    decreases v, 1
  {
    if f.repeated then v.GSlice? && Fits(SizeOf(v)) && forall x <- v.items :: ElemOk(lim, f.typ, x)
    else if f.typ.FMap? then v.GMap? && Fits(SizeOf(v)) && forall key <- v.entries :: ElemOk(lim, f.typ.elem, v.entries[key])
    else if f.optional && !f.typ.FMessage? then v.GRef? && (v.target.Some? ==> ElemOk(lim, f.typ, v.target.value))
    else ElemOk(lim, f.typ, v)
  }

  /** A generated struct of message `name`, NaN below it only where the limits allow. */
  ghost predicate StructOk(lim: Limits, name: string, v: GoVal)
    decreases v, 2
  {
    && v.GStruct? && name in lim.schema
    && forall f <- lim.schema[name] :: f.name in v.fields && StoredOk(lim, f, v.fields[f.name])
  }

  /** What native code computes at type `t`: widened scalars, nil or valid pointers. */
  ghost predicate HasType(lim: Limits, t: Type, v: GoVal)
    decreases t
  {
    match t
    case TBool => v.GBool?
    case TInt => v.GInt64? && Fits(v.i)
    case TDouble => v.GFloat64? && (v.d.NaN? ==> lim.nan)
    case TString => v.GStr? && Fits(SizeOf(v))
    case TBytes => v.GBytes? && Fits(SizeOf(v))
    case TEnum(_) => v.GInt32?
    case TList(elem) => v.GSlice? && Fits(SizeOf(v)) && forall x <- v.items :: HasType(lim, elem, x)
    case TMap(elem) => v.GMap? && Fits(SizeOf(v)) && forall key <- v.entries :: HasType(lim, elem, v.entries[key])
    case TMsg(name) => v.GRef? && (v.target.Some? ==> StructOk(lim, name, v.target.value))
  }

  // ---- agreement ----------------------------------------------------------

  /** Both sides yield the same value, or both fail. */
  ghost predicate Agree(g: GoOutcome, v: Outcome) {
    if g.Ok? then v == Ok(Conv(g.value)) else v.Err?
  }

  /** Native code at type `t`: a value of the type, or the rule's own panic. */
  ghost predicate Typed(lim: Limits, t: Type, g: GoOutcome) {
    if g.Ok? then HasType(lim, t, g.value) else g.error.Panic?
  }

  /** Typed, and the two sides agree, but for a tree that fails on ordering a NaN,
      which `mayPart` has to allow. */
  ghost predicate Fair(lim: Limits, t: Type, g: GoOutcome, v: Outcome, mayPart: bool) {
    Typed(lim, t, g) && if v == Err(Unordered) then mayPart else Agree(g, v)
  }

  ghost predicate Good(lim: Limits, t: Type, g: GoOutcome, v: Outcome) {
    Fair(lim, t, g, v, false)
  }

  lemma WidenOk(lim: Limits, t: FieldType, v: GoVal)
    requires ElemOk(lim, t, v)
    ensures HasType(lim, BaseType(t), Widen(v)) && Conv(Widen(v)) == Conv(v)
  {
  }

  lemma WidenList(lim: Limits, t: FieldType, items: seq<GoVal>)
    requires Fits(|items|) && forall x <- items :: ElemOk(lim, t, x)
    ensures
      var w := GSlice(seq(|items|, i requires 0 <= i < |items| => Widen(items[i])));
      HasType(lim, TList(BaseType(t)), w) && Conv(w) == Conv(GSlice(items))
  {
    forall i | 0 <= i < |items|
      ensures HasType(lim, BaseType(t), Widen(items[i])) && Conv(Widen(items[i])) == Conv(items[i])
    {
      WidenOk(lim, t, items[i]);
    }
  }

  function WidenEntries(entries: map<string, GoVal>): map<string, GoVal> {
    map k | k in entries :: Widen(entries[k])
  }

  lemma WidenMapTyped(lim: Limits, t: FieldType, entries: map<string, GoVal>)
    requires Fits(|entries|) && forall key <- entries :: ElemOk(lim, t, entries[key])
    ensures HasType(lim, TMap(BaseType(t)), GMap(WidenEntries(entries)))
  {
    var widened := WidenEntries(entries);
    assert widened.Keys == entries.Keys;
    assert |widened.Keys| == |entries.Keys|;
    forall key | key in widened
      ensures HasType(lim, BaseType(t), widened[key])
    {
      WidenOk(lim, t, entries[key]);
    }
  }

  lemma WidenMapConv(lim: Limits, t: FieldType, entries: map<string, GoVal>)
    requires forall key <- entries :: ElemOk(lim, t, entries[key])
    ensures Conv(GMap(WidenEntries(entries))) == Conv(GMap(entries))
  {
    var widened := WidenEntries(entries);
    forall key | key in entries
      ensures Conv(widened[key]) == Conv(entries[key])
    {
      WidenOk(lim, t, entries[key]);
    }
    assert ConvEntries(GMap(widened)) == ConvEntries(GMap(entries));
  }

  /** Reading a stored field natively, against what conversion stored for it. */
  lemma WidenStored(lim: Limits, f: Field, v: GoVal)
    requires FieldOk(lim.schema, f) && StoredOk(lim, f, v) && !(!f.repeated && f.optional && !f.typ.FMessage?)
    ensures HasType(lim, TypeOf(f), WidenField(f, v)) && Conv(WidenField(f, v)) == Conv(v)
  {
    if f.repeated {
      WidenList(lim, f.typ, v.items);
    } else if f.typ.FMap? {
      WidenMapTyped(lim, f.typ.elem, v.entries);
      WidenMapConv(lim, f.typ.elem, v.entries);
      assert WidenField(f, v) == GMap(WidenEntries(v.entries));
    } else {
      WidenOk(lim, f.typ, v);
    }
  }

  lemma ReadZero(lim: Limits, f: Field)
    requires FieldOk(lim.schema, f)
    ensures
      var z := WidenField(f, if f.repeated then GSlice([]) else GoZero(f.typ));
      HasType(lim, TypeOf(f), z) && Conv(z) == ZeroValue(ZeroFor(f))
  {
  }

  /** A getter chain reads what the op tree selects, through nil and unset alike. */
  lemma ReadFieldAgrees(rt: Platform, lim: Limits, name: string, f: Field, v: GoVal)
    requires WellFormed(lim.schema) && HasType(lim, TMsg(name), v) && name in lim.schema && f in lim.schema[name]
    ensures Good(lim, TypeOf(f), RunUn(rt, ReadField(f), v), DoSelect(Conv(v), f.name, ZeroFor(f)))
  {
    assert FieldOk(lim.schema, f);
    ReadZero(lim, f);
    if v.target.Some? {
      var stored := v.target.value.fields[f.name];
      assert StoredOk(lim, f, stored);
      if !f.repeated && f.optional && !f.typ.FMessage? {
        if stored.target.Some? {
          WidenOk(lim, f.typ, stored.target.value);
          assert Conv(stored) == Conv(stored.target.value);
        }
      } else {
        WidenStored(lim, f, stored);
      }
    }
  }

  // ---- one-operand forms --------------------------------------------------

  /** `has` on the converted message: inserted, and non-zero unless pointer backed. */
  lemma HasAgrees(rt: Platform, lim: Limits, name: string, f: Field, v: GoVal)
    requires WellFormed(lim.schema) && HasType(lim, TMsg(name), v) && name in lim.schema && f in lim.schema[name]
    ensures Good(lim, TBool, RunCalls(rt, CompileHas(f), v), DoHas(Conv(v), f.name, PointerBacked(f)))
  {
    assert FieldOk(lim.schema, f);
    if PointerBacked(f) {
      if v.target.Some? {
        assert StoredOk(lim, f, v.target.value.fields[f.name]);
      }
      assert RunCalls(rt, [FieldSet(f)], v) == RunUn(rt, FieldSet(f), v);
    } else {
      PlainHasAgrees(rt, lim, name, f, v);
    }
  }

  /** The native presence test of a field that is not pointer backed. */
  function PresenceTest(f: Field): seq<GoUn>
    requires !PointerBacked(f)
  {
    CompileHas(f)[1..]
  }

  lemma PresenceAgrees(rt: Platform, lim: Limits, f: Field, x: GoVal)
    requires !PointerBacked(f) && FieldOk(lim.schema, f) && HasType(lim, TypeOf(f), x)
    ensures RunCalls(rt, PresenceTest(f), x) == Ok(GBool(Present(Conv(x))))
  {
    var test := PresenceTest(f);
    if test != [] {
      assert test[1..] == [];
      assert RunCalls(rt, test, x) == RunUn(rt, test[0], x);
    }
    if f.typ.FMap? {
      assert ConvEntries(x).Keys == x.entries.Keys;
    }
  }

  /** On the converted message `has` looks at what a select would read. */
  lemma HasPlain(lim: Limits, name: string, f: Field, v: GoVal)
    requires WellFormed(lim.schema) && HasType(lim, TMsg(name), v) && name in lim.schema && f in lim.schema[name] && !PointerBacked(f)
    requires DoSelect(Conv(v), f.name, ZeroFor(f)).Ok?
    ensures DoHas(Conv(v), f.name, false) == Ok(VBool(Present(DoSelect(Conv(v), f.name, ZeroFor(f)).value)))
  {
    assert FieldOk(lim.schema, f);
    if v.target.Some? {
      assert StoredOk(lim, f, v.target.value.fields[f.name]);
    }
  }

  lemma PlainHasAgrees(rt: Platform, lim: Limits, name: string, f: Field, v: GoVal)
    requires WellFormed(lim.schema) && HasType(lim, TMsg(name), v) && name in lim.schema && f in lim.schema[name] && !PointerBacked(f)
    ensures Good(lim, TBool, RunCalls(rt, CompileHas(f), v), DoHas(Conv(v), f.name, false))
  {
    assert FieldOk(lim.schema, f);
    ReadFieldAgrees(rt, lim, name, f, v);
    var read := RunUn(rt, ReadField(f), v).value;
    PresenceAgrees(rt, lim, f, read);
    assert CompileHas(f)[0] == ReadField(f);
    assert RunCalls(rt, CompileHas(f), v) == RunCalls(rt, PresenceTest(f), read);
    HasPlain(lim, name, f, v);
  }

  lemma SizeAgrees(lim: Limits, t: Type, v: GoVal)
    requires HasType(lim, t, v) && (t.TString? || t.TBytes? || t.TList? || t.TMap?)
    ensures Good(lim, TInt, if t.TString? then Ok(GInt64(|v.s|)) else RunLen(v), DoSize(Conv(v)))
  {
    SizeConverts(v);
  }

  lemma SizeConverts(v: GoVal)
    requires v.GStr? || v.GBytes? || v.GSlice? || v.GMap?
    ensures DoSize(Conv(v)) == Ok(VInt(SizeOf(v)))
  {
    if v.GMap? {
      assert ConvEntries(v).Keys == v.entries.Keys;
    }
  }

  lemma TruncateFits(x: Double)
    requires IntSized(x)
    ensures Fits(Truncate(x.r))
  {
  }

  /** The forms that touch no field: one native call, or none. */
  lemma CallAgrees(rt: Platform, lim: Limits, u: NodeUn, t: Type, v: GoVal)
    requires !u.Select? && !u.Has? && InferUn(lim.schema, u, t).Some? && HasType(lim, t, v) && RoundsWithin(rt, lim)
    requires |CompileUn(u)| == 1
    ensures Good(lim, InferUn(lim.schema, u, t).value, RunUn(rt, CompileUn(u)[0], v), Unary(rt, LowerUn(u).value, Conv(v)))
  {
    match u
    case Size(_) => SizeAgrees(lim, t, v);
    case Neg(_) => NegAgrees(rt, lim, u, t, v);
    case ToInt(_) => ToIntAgrees(rt, lim, v);
    case ToDouble(_) => ToDoubleAgrees(rt, lim, v);
    case Matches(_) =>
    case Not =>
  }

  lemma NegAgrees(rt: Platform, lim: Limits, u: NodeUn, t: Type, v: GoVal)
    requires u.Neg? && t == (if u.ofInt then TInt else TDouble) && HasType(lim, t, v)
    ensures Good(lim, t, RunUn(rt, CompileUn(u)[0], v), Unary(rt, LowerUn(u).value, Conv(v)))
  {
    if u.ofInt {
      TargetsAgree(Add, v.i, 0);
    }
  }

  lemma ToIntAgrees(rt: Platform, lim: Limits, v: GoVal)
    requires HasType(lim, TDouble, v)
    ensures Good(lim, TInt, RunUn(rt, CallToInt, v), Unary(rt, OToInt, Conv(v)))
  {
    if IntSized(v.d) {
      TruncateFits(v.d);
    }
  }

  lemma ToDoubleAgrees(rt: Platform, lim: Limits, v: GoVal)
    requires HasType(lim, TInt, v) && RoundsWithin(rt, lim)
    ensures Good(lim, TDouble, RunUn(rt, ToFloat64, v), Unary(rt, OToDouble, Conv(v)))
  {
    assert lim.nan || !rt.round(v.i as real).NaN?;
  }

  ghost function LoweredUn(rt: Platform, u: NodeUn, v: Value): Outcome {
    match LowerUn(u)
    case Some(op) => Unary(rt, op, v)
    case None => Ok(v)
  }

  lemma UnAgrees(rt: Platform, lim: Limits, u: NodeUn, t: Type, v: GoVal)
    requires WellFormed(lim.schema) && InferUn(lim.schema, u, t).Some? && HasType(lim, t, v) && RoundsWithin(rt, lim)
    ensures Good(lim, InferUn(lim.schema, u, t).value, RunCalls(rt, CompileUn(u), v), LoweredUn(rt, u, Conv(v)))
  {
    var calls := CompileUn(u);
    if u.Has? {
      HasAgrees(rt, lim, t.message, u.field, v);
    } else if |calls| == 1 {
      assert calls[1..] == [];
      assert RunCalls(rt, calls, v) == RunUn(rt, calls[0], v);
      if u.Select? {
        ReadFieldAgrees(rt, lim, t.message, u.field, v);
      } else {
        CallAgrees(rt, lim, u, t, v);
      }
    }
  }

  // ---- two-operand forms --------------------------------------------------

  lemma EqualAgrees(lim: Limits, t: Type, v: GoVal, w: GoVal)
    requires Comparable(t) && HasType(lim, t, v) && HasType(lim, t, w)
    ensures GoEqual(v, w).Ok? && EqualValues(Conv(v), Conv(w)) == Ok(GoEqual(v, w).value)
    ensures GoEqual(w, v) == GoEqual(v, w)
  {
  }

  lemma {:induction false} ContainsAgrees(lim: Limits, t: Type, items: seq<GoVal>, v: GoVal)
    requires Comparable(t) && HasType(lim, t, v) && forall x <- items :: HasType(lim, t, x)
    ensures GoContains(items, v).Ok?
    ensures InList(Conv(v), seq(|items|, i requires 0 <= i < |items| => Conv(items[i]))) == Ok(GoContains(items, v).value)
    decreases |items|
  {
    if items != [] {
      EqualAgrees(lim, t, v, items[0]);
      var all := seq(|items|, i requires 0 <= i < |items| => Conv(items[i]));
      assert all[1..] == seq(|items[1..]|, i requires 0 <= i < |items[1..]| => Conv(items[1..][i]));
      ContainsAgrees(lim, t, items[1..], v);
    }
  }

  lemma OrderAgrees(lim: Limits, t: Type, cmp: CmpOp, v: GoVal, w: GoVal)
    requires (t.TInt? || t.TDouble?) && HasType(lim, t, v) && HasType(lim, t, w) && !cmp.Eq? && !cmp.Ne?
    ensures Fair(lim, TBool, GoOrder(cmp, v, w), BoolOutcome(CompareValues(cmp, Conv(v), Conv(w))), lim.nan && t.TDouble?)
  {
  }

  lemma ArithAgrees(rt: Platform, lim: Limits, b: NodeBin, v: GoVal, w: GoVal)
    requires b.ArithInt? || b.ArithDbl?
    requires var t := if b.ArithInt? then TInt else TDouble; HasType(lim, t, v) && HasType(lim, t, w)
    ensures Good(lim, if b.ArithInt? then TInt else TDouble,
                 RunBin(rt, if b.ArithInt? then CallInt(b.iop) else CallDbl(b.dop), v, w), Binary(rt, LowerBin(b), Conv(v), Conv(w)))
  {
    if b.ArithInt? {
      TargetsAgree(b.iop, v.i, w.i);
    }
  }

  /** What the native code of a two-operand form does with its operands' values,
      given in source order. */
  ghost function RunNodeBin(rt: Platform, b: NodeBin, v: GoVal, w: GoVal): GoOutcome {
    match b
    case Index(ofMap) => RunBin(rt, if ofMap then CallGet else CallAt, v, w)
    case StrTest(fn) => RunBin(rt, StrCall(fn), v, w)
    case Compare(cmp) => RunBin(rt, Native(cmp), v, w)
    case In(inMap) => RunBin(rt, if inMap then CallHas else CallContains, w, v)
    case ArithInt(iop) => RunBin(rt, CallInt(iop), v, w)
    case ArithDbl(dop) => RunBin(rt, CallDbl(dop), v, w)
  }

  lemma IndexAgrees(rt: Platform, lim: Limits, ofMap: bool, t: Type, u: Type, v: GoVal, w: GoVal)
    requires InferBin(Index(ofMap), t, u).Some? && HasType(lim, t, v) && HasType(lim, u, w)
    ensures Good(lim, t.elem, RunBin(rt, if ofMap then CallGet else CallAt, v, w),
                 Binary(rt, LowerBin(Index(ofMap)), Conv(v), Conv(w)))
  {
  }

  lemma InAgrees(rt: Platform, lim: Limits, inMap: bool, t: Type, u: Type, v: GoVal, w: GoVal)
    requires InferBin(In(inMap), t, u).Some? && HasType(lim, t, v) && HasType(lim, u, w)
    ensures Good(lim, TBool, RunBin(rt, if inMap then CallHas else CallContains, w, v), Binary(rt, OIn, Conv(v), Conv(w)))
  {
    if !inMap {
      ContainsAgrees(lim, t, w.items, v);
    }
  }

  lemma CompareAgrees(rt: Platform, lim: Limits, cmp: CmpOp, t: Type, v: GoVal, w: GoVal)
    requires InferBin(Compare(cmp), t, t).Some? && HasType(lim, t, v) && HasType(lim, t, w)
    ensures Fair(lim, TBool, RunBin(rt, GoBin.Native(cmp), v, w), Binary(rt, OCompare(cmp), Conv(v), Conv(w)),
                 lim.nan && OrdersDouble(Compare(cmp), t))
  {
    if cmp.Eq? || cmp.Ne? {
      EqualAgrees(lim, t, v, w);
    } else {
      OrderAgrees(lim, t, cmp, v, w);
    }
  }

  lemma BinAgrees(rt: Platform, lim: Limits, b: NodeBin, t: Type, u: Type, v: GoVal, w: GoVal)
    requires InferBin(b, t, u).Some? && HasType(lim, t, v) && HasType(lim, u, w)
    ensures Fair(lim, InferBin(b, t, u).value, RunNodeBin(rt, b, v, w), Binary(rt, LowerBin(b), Conv(v), Conv(w)),
                 lim.nan && OrdersDouble(b, t))
  {
    if b.ArithInt? || b.ArithDbl? {
      ArithAgrees(rt, lim, b, v, w);
    } else if b.Index? {
      IndexAgrees(rt, lim, b.ofMap, t, u, v, w);
    } else if b.In? {
      InAgrees(rt, lim, b.inMap, t, u, v, w);
    } else if b.Compare? {
      CompareAgrees(rt, lim, b.cmp, t, v, w);
    }
  }

  // ---- whole expressions --------------------------------------------------

  /** Native loop variables and evaluator slots hold the same values. */
  ghost predicate EnvOk(lim: Limits, scope: Scope, genv: map<nat, GoVal>, env: seq<Value>) {
    |env| == |scope| && forall i: nat :: i < |scope| ==> SlotOk(lim, scope[i].1, genv, i + 1, env[i])
  }

  ghost predicate SlotOk(lim: Limits, t: Type, genv: map<nat, GoVal>, depth: nat, v: Value) {
    depth in genv && HasType(lim, t, genv[depth]) && v == Conv(genv[depth])
  }

  lemma EnvPush(lim: Limits, scope: Scope, genv: map<nat, GoVal>, env: seq<Value>, name: string, t: Type, v: GoVal)
    requires EnvOk(lim, scope, genv, env) && HasType(lim, t, v)
    ensures EnvOk(lim, scope + [(name, t)], genv[|scope| + 1 := v], env + [Conv(v)])
    ensures Names(scope + [(name, t)]) == Names(scope) + [name]
  {
    var scope', genv', env' := scope + [(name, t)], genv[|scope| + 1 := v], env + [Conv(v)];
    forall i: nat | i < |scope'|
      ensures SlotOk(lim, scope'[i].1, genv', i + 1, env'[i])
    {
      if i < |scope| {
        assert scope'[i] == scope[i] && env'[i] == env[i] && SlotOk(lim, scope[i].1, genv, i + 1, env[i]);
      }
    }
  }

  /** `<`, `<=`, `>` or `>=` on doubles, where the targets part over a NaN. */
  predicate OrdersDouble(b: NodeBin, t: Type) {
    b.Compare? && !b.cmp.Eq? && !b.cmp.Ne? && t.TDouble?
  }

  /** Whether a rule orders doubles anywhere. */
  predicate OrdersDoubles(schema: Schema, site: Site, scope: Scope, n: Node)
    decreases n
  {
    match n
    case Const(_) => false
    case Ident(_) => false
    case ListLit(elems) => exists x <- elems :: OrdersDoubles(schema, site, scope, x)
    case Un(_, x) => OrdersDoubles(schema, site, scope, x)
    case Bin(b, l, r) =>
      var t := Infer(schema, site, scope, l);
      OrdersDoubles(schema, site, scope, l) || OrdersDoubles(schema, site, scope, r) || (t.Some? && OrdersDouble(b, t.value))
    case Short(_, l, r) => OrdersDoubles(schema, site, scope, l) || OrdersDoubles(schema, site, scope, r)
    case Ternary(c, a, b) =>
      OrdersDoubles(schema, site, scope, c) || OrdersDoubles(schema, site, scope, a) || OrdersDoubles(schema, site, scope, b)
    case Quant(_, range, name, body) =>
      var t := Infer(schema, site, scope, range);
      OrdersDoubles(schema, site, scope, range)
      || (t.Some? && t.value.TList? && OrdersDoubles(schema, site, scope + [(name, t.value.elem)], body))
  }

  /** Everything a comparison of the two programs is relative to. */
  datatype Setting = Setting(
    rt: Platform, lim: Limits, site: Site, scope: Scope, m: GoVal, genv: map<nat, GoVal>, env: seq<Value>)
  {
    ghost predicate Ok() {
      && WellFormed(lim.schema) && SiteOk(lim.schema, site) && RoundsWithin(rt, lim)
      && HasType(lim, TMsg(site.message), m) && EnvOk(lim, scope, genv, env)
    }

    function TypeOf(n: Node): Option<Type> {
      Infer(lim.schema, site, scope, n)
    }

    /** The expression orders doubles, and a NaN may be among them. */
    predicate MayPart(n: Node) {
      lim.nan && OrdersDoubles(lim.schema, site, scope, n)
    }

    function Native(n: Node): GoOutcome {
      Run(rt, Compile(site, Names(scope), n), m, genv)
    }

    function Tree(n: Node): Outcome {
      Meaning(rt, Lower(site, Names(scope), n), Conv(m), env)
    }

    ghost predicate Agrees(n: Node)
      requires TypeOf(n).Some?
    {
      Fair(lim, TypeOf(n).value, Native(n), Tree(n), MayPart(n))
    }

    /** The same setting inside a loop whose variable holds `v`. */
    function Inside(name: string, t: Type, v: GoVal): Setting {
      Setting(rt, lim, site, scope + [(name, t)], m, genv[|scope| + 1 := v], env + [Conv(v)])
    }
  }

  lemma ConstAgrees(e: Setting, lit: Lit)
    requires e.Ok() && e.TypeOf(Const(lit)).Some?
    ensures e.Agrees(Const(lit))
  {
  }

  lemma IdentAgrees(e: Setting, name: string)
    requires e.Ok() && e.TypeOf(Ident(name)).Some?
    ensures e.Agrees(Ident(name))
  {
    var found := Find(Names(e.scope), name);
    if found.Some? {
      assert SlotOk(e.lim, e.scope[found.value].1, e.genv, found.value + 1, e.env[found.value]);
    } else if name == "value" && e.site.field.Some? {
      var f := e.site.field.value;
      ReadFieldAgrees(e.rt, e.lim, e.site.message, f, e.m);
      assert [ReadField(f)][1..] == [];
      assert RunCalls(e.rt, [ReadField(f)], e.m) == RunUn(e.rt, ReadField(f), e.m);
      assert Run(e.rt, GMessage, e.m, e.genv) == Ok(e.m);
      assert e.Native(Ident(name)) == RunUn(e.rt, ReadField(f), e.m);
      assert Meaning(e.rt, OSelf, Conv(e.m), e.env) == Ok(Conv(e.m));
      assert e.Tree(Ident(name)) == DoSelect(Conv(e.m), f.name, ZeroFor(f));
    }
  }

  lemma UnCase(e: Setting, u: NodeUn, x: Node)
    requires e.Ok() && e.TypeOf(Un(u, x)).Some? && e.Agrees(x)
    ensures e.Agrees(Un(u, x))
  {
    var r := e.Native(x);
    if r.Ok? {
      UnAgrees(e.rt, e.lim, u, e.TypeOf(x).value, r.value);
    }
    NativeUn(e, u, x);
    TreeUn(e, u, x);
  }

  lemma NativeUn(e: Setting, u: NodeUn, x: Node)
    ensures e.Native(Un(u, x)) == if e.Native(x).Err? then e.Native(x) else RunCalls(e.rt, CompileUn(u), e.Native(x).value)
  {
  }

  lemma TreeUn(e: Setting, u: NodeUn, x: Node)
    ensures e.Tree(Un(u, x)) == if e.Tree(x).Err? then e.Tree(x) else LoweredUn(e.rt, u, e.Tree(x).value)
  {
  }

  /** Both operands run, whichever goes first. */
  lemma BinRuns(e: Setting, b: NodeBin, l: Node, r: Node)
    ensures
      var v, w := e.Native(l), e.Native(r);
      if v.Ok? && w.Ok? then e.Native(Bin(b, l, r)) == RunNodeBin(e.rt, b, v.value, w.value)
      else e.Native(Bin(b, l, r)).Err? && (e.Native(Bin(b, l, r)) == v || e.Native(Bin(b, l, r)) == w)
  {
  }

  lemma BinCase(e: Setting, b: NodeBin, l: Node, r: Node)
    requires e.Ok() && e.TypeOf(Bin(b, l, r)).Some? && e.Agrees(l) && e.Agrees(r)
    ensures e.Agrees(Bin(b, l, r))
  {
    BinRuns(e, b, l, r);
    var v, w := e.Native(l), e.Native(r);
    if v.Ok? && w.Ok? {
      BinAgrees(e.rt, e.lim, b, e.TypeOf(l).value, e.TypeOf(r).value, v.value, w.value);
    }
    TreeBin(e, b, l, r);
  }

  lemma TreeBin(e: Setting, b: NodeBin, l: Node, r: Node)
    ensures
      var v, w := e.Tree(l), e.Tree(r);
      e.Tree(Bin(b, l, r)) == if v.Err? then v else if w.Err? then w else Binary(e.rt, LowerBin(b), v.value, w.value)
  {
  }

  lemma NativeShort(e: Setting, and: bool, l: Node, r: Node)
    ensures e.Native(Short(and, l, r))
         == if AsCond(e.Native(l)).Err? || AsCond(e.Native(l)).value.b != and then AsCond(e.Native(l)) else AsCond(e.Native(r))
  {
  }

  lemma TreeShort(e: Setting, and: bool, l: Node, r: Node)
    ensures e.Tree(Short(and, l, r))
         == if AsBool(e.Tree(l)).Err? || AsBool(e.Tree(l)).value.b != and then AsBool(e.Tree(l)) else AsBool(e.Tree(r))
  {
  }

  lemma ShortCase(e: Setting, and: bool, l: Node, r: Node)
    requires e.Ok() && e.TypeOf(Short(and, l, r)).Some? && e.Agrees(l) && e.Agrees(r)
    ensures e.Agrees(Short(and, l, r))
  {
    NativeShort(e, and, l, r);
    TreeShort(e, and, l, r);
    assert e.TypeOf(l) == e.TypeOf(r) == Some(TBool);
  }

  lemma NativeTernary(e: Setting, c: Node, a: Node, b: Node)
    ensures e.Native(Ternary(c, a, b))
         == if AsCond(e.Native(c)).Err? then AsCond(e.Native(c)) else if AsCond(e.Native(c)).value.b then e.Native(a) else e.Native(b)
  {
  }

  lemma TreeTernary(e: Setting, c: Node, a: Node, b: Node)
    ensures e.Tree(Ternary(c, a, b))
         == if AsBool(e.Tree(c)).Err? then AsBool(e.Tree(c)) else if AsBool(e.Tree(c)).value.b then e.Tree(a) else e.Tree(b)
  {
  }

  lemma TernaryCase(e: Setting, c: Node, a: Node, b: Node)
    requires e.Ok() && e.TypeOf(Ternary(c, a, b)).Some? && e.Agrees(c) && e.Agrees(a) && e.Agrees(b)
    ensures e.Agrees(Ternary(c, a, b))
  {
    NativeTernary(e, c, a, b);
    TreeTernary(e, c, a, b);
    assert e.TypeOf(c) == Some(TBool) && e.TypeOf(Ternary(c, a, b)) == e.TypeOf(a) == e.TypeOf(b);
  }

  function ConvAll(items: seq<GoVal>): seq<Value> {
    seq(|items|, i requires 0 <= i < |items| => Conv(items[i]))
  }

  lemma ListCase(e: Setting, elems: seq<Node>)
    requires e.Ok() && e.TypeOf(ListLit(elems)).Some? && AllAgree(e, elems, e.TypeOf(ListLit(elems)).value.elem)
    ensures e.Agrees(ListLit(elems))
  {
    var g := RunAll(e.rt, CompileAll(e.site, Names(e.scope), elems), e.m, e.genv);
    if g.Ok? {
      assert Conv(GSlice(g.value)) == VList(ConvAll(g.value));
    }
  }

  lemma NativeQuant(e: Setting, all: bool, range: Node, name: string, body: Node)
    ensures
      var vars := Names(e.scope) + [name];
      var r := e.Native(range);
      e.Native(Quant(all, range, name, body))
      == if r.Err? then r else if !r.value.GSlice? then Err(Crash)
         else RunLoop(e.rt, all, |vars|, r.value.items, Compile(e.site, vars, body), e.m, e.genv)
  {
  }

  lemma TreeQuant(e: Setting, all: bool, range: Node, name: string, body: Node)
    ensures
      var v := e.Tree(range);
      e.Tree(Quant(all, range, name, body))
      == if v.Err? then v else if !v.value.VList? then Err(Mismatch)
         else MeaningQuant(e.rt, all, v.value.items, Lower(e.site, Names(e.scope) + [name], body), Conv(e.m), e.env)
  {
  }

  lemma QuantCase(e: Setting, all: bool, range: Node, name: string, body: Node)
    requires e.Ok() && e.TypeOf(Quant(all, range, name, body)).Some? && e.Agrees(range)
    requires e.Native(range).Ok? ==> LoopAgrees(e, all, name, e.TypeOf(range).value.elem, e.Native(range).value.items, body)
    ensures e.Agrees(Quant(all, range, name, body))
  {
    NativeQuant(e, all, range, name, body);
    TreeQuant(e, all, range, name, body);
    var t, r := e.TypeOf(range), e.Native(range);
    assert t.Some? && t.value.TList?;
    assert e.TypeOf(Quant(all, range, name, body)) == Some(TBool);
    if r.Ok? {
      assert HasType(e.lim, t.value, r.value) && r.value.GSlice?;
      assert Conv(r.value) == VList(ConvAll(r.value.items));
    }
  }

  ghost predicate AllAgree(e: Setting, ns: seq<Node>, t: Type) {
    FairAll(e.lim, t, |ns|, RunAll(e.rt, CompileAll(e.site, Names(e.scope), ns), e.m, e.genv),
            MeaningAll(e.rt, LowerAll(e.site, Names(e.scope), ns), Conv(e.m), e.env), exists n <- ns :: e.MayPart(n))
  }

  /** `Fair` for the items of a list. */
  ghost predicate FairAll(lim: Limits, t: Type, count: nat, g: Result<seq<GoVal>, GoFail>, v: Result<seq<Value>, Why>, mayPart: bool) {
    && (if g.Ok? then |g.value| == count && forall x <- g.value :: HasType(lim, t, x) else g.error.Panic?)
    && (if v == Err(Unordered) then mayPart else if g.Ok? then v == Ok(ConvAll(g.value)) else v.Err?)
  }

  ghost predicate LoopAgrees(e: Setting, all: bool, name: string, elem: Type, items: seq<GoVal>, body: Node) {
    var vars := Names(e.scope) + [name];
    Fair(e.lim, TBool, RunLoop(e.rt, all, |vars|, items, Compile(e.site, vars, body), e.m, e.genv),
         MeaningQuant(e.rt, all, ConvAll(items), Lower(e.site, vars, body), Conv(e.m), e.env),
         e.lim.nan && OrdersDoubles(e.lim.schema, e.site, e.scope + [(name, elem)], body))
  }

  /** The compiled expression and the lowered one agree below any loop variables. */
  lemma {:induction false} ExprAgrees(e: Setting, n: Node)
    requires e.Ok() && e.TypeOf(n).Some?
    ensures e.Agrees(n)
    decreases n, 1
  {
    match n
    case Const(lit) => ConstAgrees(e, lit);
    case Ident(name) => IdentAgrees(e, name);
    case ListLit(elems) => ItemsAgree(e, elems);
    case Un(u, x) =>
      ExprAgrees(e, x);
      UnCase(e, u, x);
    case Bin(_, _, _) => OperandsAgree(e, n);
    case Short(_, _, _) => OperandsAgree(e, n);
    case Ternary(_, _, _) => TernaryAgrees(e, n);
    case Quant(_, _, _, _) => QuantAgrees(e, n);
  }

  lemma {:induction false} ItemsAgree(e: Setting, elems: seq<Node>)
    requires e.Ok() && e.TypeOf(ListLit(elems)).Some?
    ensures e.Agrees(ListLit(elems))
    decreases elems, 1
  {
    ListAgrees(e, elems, e.TypeOf(ListLit(elems)).value.elem);
    ListCase(e, elems);
  }

  lemma {:induction false} OperandsAgree(e: Setting, n: Node)
    requires e.Ok() && e.TypeOf(n).Some? && (n.Bin? || n.Short?)
    ensures e.Agrees(n)
    decreases n, 0
  {
    ExprAgrees(e, n.l);
    ExprAgrees(e, n.r);
    if n.Bin? {
      BinCase(e, n.bin, n.l, n.r);
    } else {
      ShortCase(e, n.and, n.l, n.r);
    }
  }

  lemma {:induction false} TernaryAgrees(e: Setting, n: Node)
    requires e.Ok() && e.TypeOf(n).Some? && n.Ternary?
    ensures e.Agrees(n)
    decreases n, 0
  {
    ExprAgrees(e, n.cond);
    ExprAgrees(e, n.thn);
    ExprAgrees(e, n.els);
    TernaryCase(e, n.cond, n.thn, n.els);
  }

  lemma {:induction false} QuantAgrees(e: Setting, n: Node)
    requires e.Ok() && e.TypeOf(n).Some? && n.Quant?
    ensures e.Agrees(n)
    decreases n, 0
  {
    ExprAgrees(e, n.range);
    if e.Native(n.range).Ok? {
      EachAgrees(e, n.all, n.name, e.TypeOf(n.range).value.elem, e.Native(n.range).value.items, n.body);
    }
    QuantCase(e, n.all, n.range, n.name, n.body);
  }

  lemma {:induction false} ListAgrees(e: Setting, ns: seq<Node>, t: Type)
    requires e.Ok() && InferAll(e.lim.schema, e.site, e.scope, ns, t)
    ensures AllAgree(e, ns, t)
    decreases ns, 0
  {
    if ns != [] {
      ExprAgrees(e, ns[0]);
      ListAgrees(e, ns[1..], t);
      ListStep(e, ns, t);
    } else {
      assert ConvAll([]) == [];
    }
  }

  lemma ListStep(e: Setting, ns: seq<Node>, t: Type)
    requires ns != [] && e.TypeOf(ns[0]) == Some(t) && e.Agrees(ns[0]) && AllAgree(e, ns[1..], t)
    ensures AllAgree(e, ns, t)
  {
    NativeAll(e, ns);
    TreeAll(e, ns);
    var g, gs := e.Native(ns[0]), RunAll(e.rt, CompileAll(e.site, Names(e.scope), ns[1..]), e.m, e.genv);
    var v, vs := e.Tree(ns[0]), MeaningAll(e.rt, LowerAll(e.site, Names(e.scope), ns[1..]), Conv(e.m), e.env);
    OneMore(e.lim, t, |ns| - 1, g, v, gs, vs, e.MayPart(ns[0]), exists n <- ns[1..] :: e.MayPart(n));
  }

  lemma OneMore(lim: Limits, t: Type, count: nat, g: GoOutcome, v: Outcome, gs: Result<seq<GoVal>, GoFail>,
                vs: Result<seq<Value>, Why>, mayPart: bool, restMayPart: bool)
    requires Fair(lim, t, g, v, mayPart) && FairAll(lim, t, count, gs, vs, restMayPart)
    ensures
      FairAll(lim, t, count + 1, if g.Err? then Err(g.error) else if gs.Err? then gs else Ok([g.value] + gs.value),
              if v.Err? then Err(v.error) else if vs.Err? then vs else Ok([v.value] + vs.value), mayPart || restMayPart)
  {
    if g.Ok? && gs.Ok? {
      assert ConvAll([g.value] + gs.value) == [Conv(g.value)] + ConvAll(gs.value);
    }
  }

  lemma NativeAll(e: Setting, ns: seq<Node>)
    requires ns != []
    ensures
      var g, gs := e.Native(ns[0]), RunAll(e.rt, CompileAll(e.site, Names(e.scope), ns[1..]), e.m, e.genv);
      RunAll(e.rt, CompileAll(e.site, Names(e.scope), ns), e.m, e.genv)
      == if g.Err? then Err(g.error) else if gs.Err? then gs else Ok([g.value] + gs.value)
  {
    assert CompileAll(e.site, Names(e.scope), ns)[1..] == CompileAll(e.site, Names(e.scope), ns[1..]);
  }

  lemma TreeAll(e: Setting, ns: seq<Node>)
    requires ns != []
    ensures
      var v, vs := e.Tree(ns[0]), MeaningAll(e.rt, LowerAll(e.site, Names(e.scope), ns[1..]), Conv(e.m), e.env);
      MeaningAll(e.rt, LowerAll(e.site, Names(e.scope), ns), Conv(e.m), e.env)
      == if v.Err? then Err(v.error) else if vs.Err? then vs else Ok([v.value] + vs.value)
  {
    assert LowerAll(e.site, Names(e.scope), ns)[1..] == LowerAll(e.site, Names(e.scope), ns[1..]);
  }

  lemma {:induction false} EachAgrees(e: Setting, all: bool, name: string, elem: Type, items: seq<GoVal>, body: Node)
    requires e.Ok() && Infer(e.lim.schema, e.site, e.scope + [(name, elem)], body) == Some(TBool)
    requires forall x <- items :: HasType(e.lim, elem, x)
    ensures LoopAgrees(e, all, name, elem, items, body)
    decreases body, 2, |items|
  {
    if items != [] {
      EnvPush(e.lim, e.scope, e.genv, e.env, name, elem, items[0]);
      ExprAgrees(e.Inside(name, elem, items[0]), body);
      EachAgrees(e, all, name, elem, items[1..], body);
      LoopStep(e, all, name, elem, items, body);
    }
  }

  lemma NativeTurn(e: Setting, all: bool, name: string, elem: Type, items: seq<GoVal>, body: Node)
    requires items != [] && Names(e.scope + [(name, elem)]) == Names(e.scope) + [name]
    ensures
      var vars := Names(e.scope) + [name];
      var code := Compile(e.site, vars, body);
      var r := AsCond(e.Inside(name, elem, items[0]).Native(body));
      RunLoop(e.rt, all, |vars|, items, code, e.m, e.genv)
      == if r.Err? || r.value.b != all then r else RunLoop(e.rt, all, |vars|, items[1..], code, e.m, e.genv)
  {
  }

  lemma TreeTurn(e: Setting, all: bool, name: string, elem: Type, items: seq<GoVal>, body: Node)
    requires items != [] && Names(e.scope + [(name, elem)]) == Names(e.scope) + [name]
    ensures
      var op := Lower(e.site, Names(e.scope) + [name], body);
      var r := AsBool(e.Inside(name, elem, items[0]).Tree(body));
      MeaningQuant(e.rt, all, ConvAll(items), op, Conv(e.m), e.env)
      == if r.Err? || r.value.b != all then r else MeaningQuant(e.rt, all, ConvAll(items[1..]), op, Conv(e.m), e.env)
  {
    assert ConvAll(items)[0] == Conv(items[0]) && ConvAll(items)[1..] == ConvAll(items[1..]);
  }

  /** One turn of the loop, then the rest of it. */
  lemma LoopStep(e: Setting, all: bool, name: string, elem: Type, items: seq<GoVal>, body: Node)
    requires items != [] && Infer(e.lim.schema, e.site, e.scope + [(name, elem)], body) == Some(TBool)
    requires Names(e.scope + [(name, elem)]) == Names(e.scope) + [name]
    requires e.Inside(name, elem, items[0]).Agrees(body) && LoopAgrees(e, all, name, elem, items[1..], body)
    ensures LoopAgrees(e, all, name, elem, items, body)
  {
    NativeTurn(e, all, name, elem, items, body);
    TreeTurn(e, all, name, elem, items, body);
    var g, v := e.Inside(name, elem, items[0]).Native(body), e.Inside(name, elem, items[0]).Tree(body);
    var mayPart := e.lim.nan && OrdersDoubles(e.lim.schema, e.site, e.scope + [(name, elem)], body);
    assert Fair(e.lim, TBool, g, v, mayPart);
    assert Fair(e.lim, TBool, AsCond(g), AsBool(v), mayPart);
  }

  // ---- rules --------------------------------------------------------------

  /** The native code of a checked rule returns a verdict on every message: it never
      panics but by its own panic, which it recovers from. */
  lemma NeverCrashes(rt: Platform, schema: Schema, site: Site, n: Node, m: GoVal)
    requires CheckedRule(schema, site, n) && HasType(Limits(schema, true), TMsg(site.message), m)
    ensures GoHolds(rt, Compile(site, [], n), m).Ok?
  {
    assert Names([]) == [];
    ExprAgrees(Setting(rt, Limits(schema, true), site, [], m, map[], []), n);
  }

  /** On every message the two sides give one verdict, unless the tree fails on
      ordering a NaN; then they part exactly if the native code says yes. */
  lemma SameVerdict(rt: Platform, schema: Schema, site: Site, n: Node, m: GoVal)
    requires CheckedRule(schema, site, n) && HasType(Limits(schema, true), TMsg(site.message), m)
    ensures
      var native, op := GoHolds(rt, Compile(site, [], n), m), Lower(site, [], n);
      native == Ok(Holds(rt, op, Conv(m))) <==> !(Meaning(rt, op, Conv(m), []) == Err(Unordered) && native == Ok(true))
  {
    assert Names([]) == [];
    ExprAgrees(Setting(rt, Limits(schema, true), site, [], m, map[], []), n);
  }

  /** No tree fails that way on a message without NaN, nor a rule that orders no
      doubles on any message: there the verdicts are equal. */
  lemma SameVerdictWithoutNaN(rt: Platform, lim: Limits, site: Site, n: Node, m: GoVal)
    requires CheckedRule(lim.schema, site, n) && RoundsWithin(rt, lim) && HasType(lim, TMsg(site.message), m)
    requires lim.nan ==> !OrdersDoubles(lim.schema, site, [], n)
    ensures Meaning(rt, Lower(site, [], n), Conv(m), []) != Err(Unordered)
    ensures GoHolds(rt, Compile(site, [], n), m) == Ok(Holds(rt, Lower(site, [], n), Conv(m)))
  {
    assert Names([]) == [];
    ExprAgrees(Setting(rt, lim, site, [], m, map[], []), n);
  }
}
