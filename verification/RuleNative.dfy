/**
 Compiling a rule to native Go: getters that tolerate nil, widened scalars, loop
 variables named by depth, and a panic for everything that cannot be evaluated.
 The Go value model keeps pointers, so a nil dereference or a call at the wrong
 type would show as `Crash`.
 */
module RuleNative {

  import opened Wrappers
  import opened Arith64
  import opened RuleLang
  import opened RuleEval

  // ---- Go values ----------------------------------------------------------

  datatype GoVal =
    | GBool(b: bool)
    | GInt32(i: int)
    | GUint32(i: int)
    | GInt64(i: int)
    | GEnum(i: int)
    | GFloat32(d: Double)
    | GFloat64(d: Double)
    | GStr(s: string)
    | GBytes(size: nat)
    | GSlice(items: seq<GoVal>)
    | GMap(entries: map<string, GoVal>)
    | GStruct(fields: map<string, GoVal>)
    | GRef(target: Option<GoVal>)

  /** `onkRuleError`, which a rule recovers from, or any other panic, which it does not. */
  datatype GoFail = Panic(why: Why) | Crash

  type GoOutcome = Result<GoVal, GoFail>

  // ---- the target language ------------------------------------------------

  datatype GoUn =
    | ReadField(field: Field)
    | FieldSet(field: Field)
    | LenPositive
    | NotBlank
    | NotZero
    | CallRunes
    | Len
    | CallMatch(pattern: string)
    | CallToInt
    | ToFloat64
    | Bang
    | CallNeg
    | Minus

  datatype GoBin =
    | CallAt
    | CallGet
    | StrCall(fn: StrFn)
    | Native(cmp: CmpOp)
    | CallHas
    | CallContains
    | CallInt(iop: IntOp)
    | CallDbl(dop: DblOp)

  datatype GoExpr =
    | GConst(value: GoVal)
    | GMessage
    | GVar(depth: nat)
    | GList(elems: seq<GoExpr>)
    | GCalls(calls: seq<GoUn>, x: GoExpr)
    | GBin(bin: GoBin, l: GoExpr, r: GoExpr)
    | GShort(and: bool, l: GoExpr, r: GoExpr)
    | GIf(cond: GoExpr, thn: GoExpr, els: GoExpr)
    | GLoop(all: bool, depth: nat, range: GoExpr, body: GoExpr)

  // ---- the compiler -------------------------------------------------------

  function CompileLit(lit: Lit): GoVal {
    match lit
    case IntLit(i) => GInt64(i)
    case DblLit(d) => GFloat64(d)
    case StrLit(s) => GStr(s)
    case EnumLit(_, ordinal) => GInt32(ordinal)
    case BoolLit(b) => GBool(b)
  }

  /** Loop variables are named by depth, so an inner one never captures an outer. */
  function CompileIdent(site: Site, vars: seq<string>, name: string): GoExpr {
    match Find(vars, name)
    case Some(i) => GVar(i + 1)
    case None =>
      if name == "value" && site.field.Some? then GCalls([ReadField(site.field.value)], GMessage) else GMessage
  }

  function CompileHas(f: Field): seq<GoUn> {
    if PointerBacked(f) then [FieldSet(f)]
    else if f.repeated || f.typ.FMap? || f.typ == FScalar(SBytes) then [ReadField(f), LenPositive]
    else if f.typ == FScalar(SString) then [ReadField(f), NotBlank]
    else if f.typ == FScalar(SBool) then [ReadField(f)]
    else [ReadField(f), NotZero]
  }

  /** The native calls around the operand, innermost first. */
  function CompileUn(u: NodeUn): seq<GoUn> {
    match u
    case Select(f) => [ReadField(f)]
    case Has(f) => CompileHas(f)
    case Size(ofString) => [if ofString then CallRunes else Len]
    case Matches(pattern) => [CallMatch(pattern)]
    case ToInt(fromDouble) => if fromDouble then [CallToInt] else []
    case ToDouble(fromInt) => if fromInt then [ToFloat64] else []
    case Not => [Bang]
    case Neg(ofInt) => [if ofInt then CallNeg else Minus]
  }

  function Compile(site: Site, vars: seq<string>, n: Node): GoExpr
    decreases n, 1
  {
    match n
    case Const(lit) => GConst(CompileLit(lit))
    case Ident(name) => CompileIdent(site, vars, name)
    case ListLit(elems) => GList(CompileAll(site, vars, elems))
    case Un(u, x) => GCalls(CompileUn(u), Compile(site, vars, x))
    case Bin(b, l, r) =>
      var gl, gr := Compile(site, vars, l), Compile(site, vars, r);
      (match b
       case Index(ofMap) => GBin(if ofMap then CallGet else CallAt, gl, gr)
       case StrTest(fn) => GBin(StrCall(fn), gl, gr)
       case Compare(cmp) => GBin(Native(cmp), gl, gr)
       case In(inMap) => GBin(if inMap then CallHas else CallContains, gr, gl)
       case ArithInt(iop) => GBin(CallInt(iop), gl, gr)
       case ArithDbl(dop) => GBin(CallDbl(dop), gl, gr))
    case Short(and, l, r) => GShort(and, Compile(site, vars, l), Compile(site, vars, r))
    case Ternary(c, a, b) => GIf(Compile(site, vars, c), Compile(site, vars, a), Compile(site, vars, b))
    case Quant(all, range, name, body) =>
      GLoop(all, |vars| + 1, Compile(site, vars, range), Compile(site, vars + [name], body))
  }

  function CompileAll(site: Site, vars: seq<string>, ns: seq<Node>): seq<GoExpr>
    decreases ns, 0
  {
    if ns == [] then [] else [Compile(site, vars, ns[0])] + CompileAll(site, vars, ns[1..])
  }

  // ---- what the generated code does ---------------------------------------

  function GoZero(t: FieldType): GoVal {
    match t
    case FScalar(SString) => GStr("")
    case FScalar(SBool) => GBool(false)
    case FScalar(SInt32) => GInt32(0)
    case FScalar(SUint32) => GUint32(0)
    case FScalar(SInt64) => GInt64(0)
    case FScalar(SFloat32) => GFloat32(Fin(0.0))
    case FScalar(SFloat64) => GFloat64(Fin(0.0))
    case FScalar(SBytes) => GBytes(0)
    case FEnum(_) => GEnum(0)
    case FMessage(_) => GRef(None)
    case FMap(_) => GMap(map[])
  }

  /** The generated getter: zero through a nil receiver or a nil pointer field. */
  function Getter(f: Field, base: GoVal): GoOutcome {
    if !base.GRef? then Err(Crash)
    else if base.target.None? then Ok(if f.repeated then GSlice([]) else GoZero(f.typ))
    else if !base.target.value.GStruct? || f.name !in base.target.value.fields then Err(Crash)
    else
      var stored := base.target.value.fields[f.name];
      if !f.repeated && f.optional && !f.typ.FMessage? then
        if !stored.GRef? then Err(Crash)
        else if stored.target.None? then Ok(GoZero(f.typ))
        else Ok(stored.target.value)
      else Ok(stored)
  }

  /** Numeric conversion to the width rules compute in. */
  function Widen(v: GoVal): GoVal {
    match v
    case GInt32(i) => GInt64(i)
    case GUint32(i) => GInt64(i)
    case GFloat32(d) => GFloat64(d)
    case GEnum(i) => GInt32(i)
    case _ => v
  }

  function WidenField(f: Field, v: GoVal): GoVal {
    if f.repeated then (if v.GSlice? then GSlice(seq(|v.items|, i requires 0 <= i < |v.items| => Widen(v.items[i]))) else v)
    else if f.typ.FMap? then (if v.GMap? then GMap(map k | k in v.entries :: Widen(v.entries[k])) else v)
    else Widen(v)
  }

  function RunUn(rt: Platform, u: GoUn, v: GoVal): GoOutcome {
    match u
    case ReadField(f) =>
      var r := Getter(f, v);
      if r.Err? then r else Ok(WidenField(f, r.value))
    case FieldSet(f) =>
      if !v.GRef? then Err(Crash)
      else if v.target.None? then Ok(GBool(false))
      else if !v.target.value.GStruct? || f.name !in v.target.value.fields || !v.target.value.fields[f.name].GRef? then Err(Crash)
      else Ok(GBool(v.target.value.fields[f.name].target.Some?))
    case LenPositive => var r := RunLen(v); if r.Err? then r else Ok(GBool(r.value.GInt64? && r.value.i > 0))
    case NotBlank => if v.GStr? then Ok(GBool(v.s != "")) else Err(Crash)
    case NotZero =>
      if v.GInt64? || v.GInt32? then Ok(GBool(v.i != 0))
      else if v.GFloat64? then Ok(GBool(!IsZero(v.d)))
      else Err(Crash)
    case CallRunes => if v.GStr? then Ok(GInt64(|v.s|)) else Err(Crash)
    case Len => RunLen(v)
    case CallMatch(pattern) => if v.GStr? then Ok(GBool(rt.matches(pattern, v.s))) else Err(Crash)
    case CallToInt => if !v.GFloat64? then Err(Crash) else if IntSized(v.d) then Ok(GInt64(Truncate(v.d.r))) else Err(Panic(TooBig))
    case ToFloat64 => if v.GInt64? then Ok(GFloat64(rt.round(v.i as real))) else Err(Crash)
    case Bang => if v.GBool? then Ok(GBool(!v.b)) else Err(Crash)
    case CallNeg => if v.GInt64? then FromInt(GoNeg(v.i)) else Err(Crash)
    case Minus => if v.GFloat64? then Ok(GFloat64(NegDouble(v.d))) else Err(Crash)
  }

  function RunLen(v: GoVal): GoOutcome {
    match v
    case GBytes(n) => Ok(GInt64(n))
    case GSlice(items) => Ok(GInt64(|items|))
    case GMap(entries) => Ok(GInt64(|entries|))
    case _ => Err(Crash)
  }

  function FromInt(r: Result<int, ArithFail>): GoOutcome {
    match r
    case Ok(i) => Ok(GInt64(i))
    case Err(fail) => Err(Panic(Arithmetic(fail)))
  }

  function RunCalls(rt: Platform, calls: seq<GoUn>, v: GoVal): GoOutcome {
    if calls == [] then Ok(v)
    else
      var r := RunUn(rt, calls[0], v);
      if r.Err? then r else RunCalls(rt, calls[1..], r.value)
  }

  /** Native `==`; operands of two types do not compile. */
  function GoEqual(v: GoVal, w: GoVal): Result<bool, GoFail> {
    if v.GBool? && w.GBool? then Ok(v.b == w.b)
    else if v.GInt64? && w.GInt64? then Ok(v.i == w.i)
    else if v.GInt32? && w.GInt32? then Ok(v.i == w.i)
    else if v.GFloat64? && w.GFloat64? then Ok(DblEqual(v.d, w.d))
    else if v.GStr? && w.GStr? then Ok(v.s == w.s)
    else Err(Crash)
  }

  /** Native ordering: any comparison with NaN is false. */
  function GoOrder(cmp: CmpOp, v: GoVal, w: GoVal): GoOutcome {
    if v.GInt64? && w.GInt64? then
      Ok(GBool(match cmp
               case Lt => v.i < w.i
               case Le => v.i <= w.i
               case Gt => v.i > w.i
               case _ => v.i >= w.i))
    else if v.GFloat64? && w.GFloat64? then
      Ok(GBool(match cmp
               case Lt => DblLess(v.d, w.d)
               case Le => DblLess(v.d, w.d) || DblEqual(v.d, w.d)
               case Gt => DblLess(w.d, v.d)
               case _ => DblLess(w.d, v.d) || DblEqual(v.d, w.d)))
    else Err(Crash)
  }

  function FromBool(r: Result<bool, GoFail>): GoOutcome {
    match r
    case Ok(b) => Ok(GBool(b))
    case Err(fail) => Err(fail)
  }

  function GoContains(items: seq<GoVal>, v: GoVal): Result<bool, GoFail> {
    if items == [] then Ok(false)
    else
      var r := GoEqual(items[0], v);
      if r.Err? || r.value then r else GoContains(items[1..], v)
  }

  function RunBin(rt: Platform, b: GoBin, v: GoVal, w: GoVal): GoOutcome {
    match b
    case CallAt =>
      if !v.GSlice? || !w.GInt64? then Err(Crash)
      else if w.i < 0 || w.i >= |v.items| then Err(Panic(BadIndex))
      else Ok(v.items[w.i])
    case CallGet =>
      if !v.GMap? || !w.GStr? then Err(Crash)
      else if w.s !in v.entries then Err(Panic(MissingKey))
      else Ok(v.entries[w.s])
    case StrCall(fn) => if v.GStr? && w.GStr? then Ok(GBool(StrHolds(fn, v.s, w.s))) else Err(Crash)
    case Native(cmp) =>
      if cmp.Eq? then FromBool(GoEqual(v, w))
      else if cmp.Ne? then (var r := GoEqual(v, w); if r.Err? then Err(r.error) else Ok(GBool(!r.value)))
      else GoOrder(cmp, v, w)
    case CallHas => if v.GMap? && w.GStr? then Ok(GBool(w.s in v.entries)) else Err(Crash)
    case CallContains => if v.GSlice? then FromBool(GoContains(v.items, w)) else Err(Crash)
    case CallInt(iop) => if v.GInt64? && w.GInt64? then FromInt(GoEval(iop, v.i, w.i)) else Err(Crash)
    case CallDbl(dop) =>
      if !v.GFloat64? || !w.GFloat64? then Err(Crash)
      else if dop.FDiv? && IsZero(w.d) then Err(Panic(Arithmetic(DivisionByZero)))
      else
        var r := DblArith(rt, dop, v.d, w.d);
        if r.Fin? then Ok(GFloat64(r)) else Err(Panic(NotFinite))
  }

  function AsCond(r: GoOutcome): GoOutcome {
    if r.Ok? && !r.value.GBool? then Err(Crash) else r
  }

  function Run(rt: Platform, e: GoExpr, m: GoVal, env: map<nat, GoVal>): GoOutcome
    decreases e, 1
  {
    match e
    case GConst(v) => Ok(v)
    case GMessage => Ok(m)
    case GVar(k) => if k in env then Ok(env[k]) else Err(Crash)
    case GList(elems) =>
      var r := RunAll(rt, elems, m, env);
      if r.Err? then Err(r.error) else Ok(GSlice(r.value))
    case GCalls(calls, x) =>
      var r := Run(rt, x, m, env);
      if r.Err? then r else RunCalls(rt, calls, r.value)
    case GBin(b, l, r) =>
      var v := Run(rt, l, m, env);
      if v.Err? then v
      else
        var w := Run(rt, r, m, env);
        if w.Err? then w else RunBin(rt, b, v.value, w.value)
    case GShort(and, l, r) =>
      var v := AsCond(Run(rt, l, m, env));
      if v.Err? || v.value.b != and then v else AsCond(Run(rt, r, m, env))
    case GIf(c, a, b) =>
      var v := AsCond(Run(rt, c, m, env));
      if v.Err? then v else if v.value.b then Run(rt, a, m, env) else Run(rt, b, m, env)
    case GLoop(all, k, range, body) =>
      var v := Run(rt, range, m, env);
      if v.Err? then v else if !v.value.GSlice? then Err(Crash) else RunLoop(rt, all, k, v.value.items, body, m, env)
  }

  function RunAll(rt: Platform, es: seq<GoExpr>, m: GoVal, env: map<nat, GoVal>): Result<seq<GoVal>, GoFail>
    decreases es, 0
  {
    if es == [] then Ok([])
    else
      var v := Run(rt, es[0], m, env);
      if v.Err? then Err(v.error)
      else
        var vs := RunAll(rt, es[1..], m, env);
        if vs.Err? then vs else Ok([v.value] + vs.value)
  }

  function RunLoop(rt: Platform, all: bool, k: nat, items: seq<GoVal>, body: GoExpr, m: GoVal, env: map<nat, GoVal>): GoOutcome
    decreases body, 2, |items|
  {
    if items == [] then Ok(GBool(all))
    else
      var v := AsCond(Run(rt, body, m, env[k := items[0]]));
      if v.Err? || v.value.b != all then v else RunLoop(rt, all, k, items[1..], body, m, env)
  }

  /** `onkRuleHolds`: a rule's own panic counts as false, any other would escape. */
  function GoHolds(rt: Platform, e: GoExpr, m: GoVal): Result<bool, GoFail> {
    var r := AsCond(Run(rt, e, m, map[]));
    if r.Ok? then Ok(r.value.b) else if r.error.Panic? then Ok(false) else Err(Crash)
  }
}
