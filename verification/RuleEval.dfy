/**
 The op-tree evaluator the Rust, Dart and Swift runtimes embed. `Meaning` is the
 lexically scoped reading of an op tree: each loop variable is a binding of its
 own. `Evaluator` is the runtime: one mutable slot vector shared by the whole
 evaluation, grown and overwritten by nested loops. The two agree on every
 well-scoped tree.
 */
module RuleEval {

  import opened Wrappers
  import opened Arith64
  import opened RuleLang

  datatype Value =
    | VBool(b: bool)
    | VInt(i: int)
    | VDbl(d: Double)
    | VStr(s: string)
    | VBytes(size: nat)
    | VList(items: seq<Value>)
    | VMap(entries: map<string, Value>)
    | VMsg(fields: map<string, Value>)

  /** Why an evaluation fails. The runtimes do not tell these apart. */
  datatype Why = Arithmetic(fail: ArithFail) | BadIndex | MissingKey | NotFinite | TooBig | Unordered | Mismatch | NoSlot

  type Outcome = Result<Value, Why>

  function ZeroValue(z: Zero): Value {
    match z
    case ZStr => VStr("")
    case ZInt => VInt(0)
    case ZDouble => VDbl(Fin(0.0))
    case ZBool => VBool(false)
    case ZBytes => VBytes(0)
    case ZList => VList([])
    case ZMap => VMap(map[])
    case ZMsg => VMsg(map[])
  }

  function Present(v: Value): bool {
    match v
    case VStr(s) => s != ""
    case VInt(i) => i != 0
    case VDbl(d) => !IsZero(d)
    case VBool(b) => b
    case VBytes(n) => n > 0
    case VList(items) => |items| > 0
    case VMap(entries) => |entries| > 0
    case VMsg(_) => true
  }

  function StrHolds(fn: StrFn, a: string, b: string): bool {
    match fn
    case StartsWith => b <= a
    case EndsWith => |b| <= |a| && a[|a| - |b|..] == b
    case Contains => exists i :: 0 <= i <= |a| - |b| && b <= a[i..]
  }

  function EqualValues(a: Value, b: Value): Result<bool, Why> {
    if a.VInt? && b.VInt? then Ok(a.i == b.i)
    else if a.VDbl? && b.VDbl? then Ok(DblEqual(a.d, b.d))
    else if a.VStr? && b.VStr? then Ok(a.s == b.s)
    else if a.VBool? && b.VBool? then Ok(a.b == b.b)
    else Err(Mismatch)
  }

  /** The evaluators refuse to order NaN. */
  function Less(a: Value, b: Value): Result<bool, Why> {
    if a.VInt? && b.VInt? then Ok(a.i < b.i)
    else if a.VDbl? && b.VDbl? then (if a.d.NaN? || b.d.NaN? then Err(Unordered) else Ok(DblLess(a.d, b.d)))
    else Err(Mismatch)
  }

  function CompareValues(op: CmpOp, a: Value, b: Value): Result<bool, Why> {
    match op
    case Eq => EqualValues(a, b)
    case Ne => Negated(EqualValues(a, b))
    case Lt => Less(a, b)
    case Ge => Negated(Less(a, b))
    case Gt => Less(b, a)
    case Le => Negated(Less(b, a))
  }

  function Negated(r: Result<bool, Why>): Result<bool, Why> {
    match r
    case Ok(b) => Ok(!b)
    case Err(why) => Err(why)
  }

  function BoolOutcome(r: Result<bool, Why>): Outcome {
    match r
    case Ok(b) => Ok(VBool(b))
    case Err(why) => Err(why)
  }

  function IntOutcome(r: Result<int, ArithFail>): Outcome {
    match r
    case Ok(i) => Ok(VInt(i))
    case Err(fail) => Err(Arithmetic(fail))
  }

  /** Membership in a list stops at the first equal item. */
  function InList(needle: Value, items: seq<Value>): Result<bool, Why> {
    if items == [] then Ok(false)
    else
      match EqualValues(needle, items[0])
      case Err(why) => Err(why)
      case Ok(true) => Ok(true)
      case Ok(false) => InList(needle, items[1..])
  }

  // ---- what an op does with its operands' values --------------------------

  function DoSelect(v: Value, name: string, zero: Zero): Outcome {
    if !v.VMsg? then Err(Mismatch)
    else if name in v.fields then Ok(v.fields[name])
    else Ok(ZeroValue(zero))
  }

  function DoHas(v: Value, name: string, ptr: bool): Outcome {
    if !v.VMsg? then Err(Mismatch)
    else if name !in v.fields then Ok(VBool(false))
    else Ok(VBool(ptr || Present(v.fields[name])))
  }

  function DoIndexList(v: Value, idx: Value): Outcome {
    if !v.VList? || !idx.VInt? then Err(Mismatch)
    else if 0 <= idx.i < |v.items| then Ok(v.items[idx.i])
    else Err(BadIndex)
  }

  function DoIndexMap(v: Value, key: Value): Outcome {
    if !key.VStr? || !v.VMap? then Err(Mismatch)
    else if key.s in v.entries then Ok(v.entries[key.s])
    else Err(MissingKey)
  }

  function DoSize(v: Value): Outcome {
    match v
    case VStr(s) => Ok(VInt(|s|))
    case VBytes(n) => Ok(VInt(n))
    case VList(items) => Ok(VInt(|items|))
    case VMap(entries) => Ok(VInt(|entries|))
    case _ => Err(Mismatch)
  }

  function DoToInt(v: Value): Outcome {
    if !v.VDbl? then Err(Mismatch)
    else if IntSized(v.d) then Ok(VInt(Truncate(v.d.r)))
    else Err(TooBig)
  }

  function Finite(d: Double): Outcome {
    if d.Fin? then Ok(VDbl(d)) else Err(NotFinite)
  }

  function DoArithDbl(rt: Platform, op: DblOp, x: Double, y: Double): Outcome {
    if op.FDiv? && IsZero(y) then Err(Arithmetic(DivisionByZero)) else Finite(DblArith(rt, op, x, y))
  }

  function Unary(rt: Platform, op: OpUn, v: Value): Outcome {
    match op
    case OSelect(name, zero) => DoSelect(v, name, zero)
    case OHas(name, ptr) => DoHas(v, name, ptr)
    case OSize => DoSize(v)
    case OMatches(pattern) => if v.VStr? then Ok(VBool(rt.matches(pattern, v.s))) else Err(Mismatch)
    case OToInt => DoToInt(v)
    case OToDouble => if v.VInt? then Ok(VDbl(rt.round(v.i as real))) else Err(Mismatch)
    case ONot => if v.VBool? then Ok(VBool(!v.b)) else Err(Mismatch)
    case ONegInt => if v.VInt? then IntOutcome(Negate(v.i)) else Err(Mismatch)
    case ONegDouble => if v.VDbl? then Ok(VDbl(NegDouble(v.d))) else Err(Mismatch)
  }

  function Binary(rt: Platform, op: OpBin, a: Value, b: Value): Outcome {
    match op
    case OIndexList => DoIndexList(a, b)
    case OIndexMap => DoIndexMap(a, b)
    case OStrTest(fn) => if a.VStr? && b.VStr? then Ok(VBool(StrHolds(fn, a.s, b.s))) else Err(Mismatch)
    case OCompare(cmp) => BoolOutcome(CompareValues(cmp, a, b))
    case OIn =>
      if b.VList? then BoolOutcome(InList(a, b.items))
      else if b.VMap? && a.VStr? then Ok(VBool(a.s in b.entries))
      else Err(Mismatch)
    case OArithInt(iop) => if a.VInt? && b.VInt? then IntOutcome(Arith64.Eval(iop, a.i, b.i)) else Err(Mismatch)
    case OArithDbl(dop) => if a.VDbl? && b.VDbl? then DoArithDbl(rt, dop, a.d, b.d) else Err(Mismatch)
  }

  function LitValue(lit: OpLit): Value {
    match lit
    case OInt(i) => VInt(i)
    case ODbl(d) => VDbl(d)
    case OStr(s) => VStr(s)
    case OBool(b) => VBool(b)
  }

  function AsBool(r: Outcome): Outcome {
    if r.Ok? && !r.value.VBool? then Err(Mismatch) else r
  }

  // ---- the lexically scoped meaning ---------------------------------------

  function Meaning(rt: Platform, op: Op, root: Value, env: seq<Value>): Outcome
    decreases op, 1
  {
    match op
    case OConst(lit) => Ok(LitValue(lit))
    case OSelf => Ok(root)
    case OSlot(i) => if i < |env| then Ok(env[i]) else Err(NoSlot)
    case OList(items) =>
      var r := MeaningAll(rt, items, root, env);
      if r.Err? then Err(r.error) else Ok(VList(r.value))
    case OUn(u, x) =>
      var v := Meaning(rt, x, root, env);
      if v.Err? then v else Unary(rt, u, v.value)
    case OBin(b, l, r) =>
      var v := Meaning(rt, l, root, env);
      if v.Err? then v
      else
        var w := Meaning(rt, r, root, env);
        if w.Err? then w else Binary(rt, b, v.value, w.value)
    case OShort(and, l, r) =>
      var v := AsBool(Meaning(rt, l, root, env));
      if v.Err? || v.value.b != and then v else AsBool(Meaning(rt, r, root, env))
    case OTernary(c, a, b) =>
      var v := AsBool(Meaning(rt, c, root, env));
      if v.Err? then v else if v.value.b then Meaning(rt, a, root, env) else Meaning(rt, b, root, env)
    case OQuant(all, list, body, _) =>
      var v := Meaning(rt, list, root, env);
      if v.Err? then v
      else if !v.value.VList? then Err(Mismatch)
      else MeaningQuant(rt, all, v.value.items, body, root, env)
  }

  function MeaningAll(rt: Platform, ops: seq<Op>, root: Value, env: seq<Value>): Result<seq<Value>, Why>
    decreases ops, 0
  {
    if ops == [] then Ok([])
    else
      var v := Meaning(rt, ops[0], root, env);
      if v.Err? then Err(v.error)
      else
        var vs := MeaningAll(rt, ops[1..], root, env);
        if vs.Err? then vs else Ok([v.value] + vs.value)
  }

  /** `all` stops at the first false, `exists` at the first true. */
  function MeaningQuant(rt: Platform, all: bool, items: seq<Value>, body: Op, root: Value, env: seq<Value>): Outcome
    decreases body, 2, |items|
  {
    if items == [] then Ok(VBool(all))
    else
      var v := AsBool(Meaning(rt, body, root, env + [items[0]]));
      if v.Err? || v.value.b != all then v else MeaningQuant(rt, all, items[1..], body, root, env)
  }

  /** A rule holds exactly when its tree evaluates to true. */
  predicate Holds(rt: Platform, op: Op, root: Value) {
    Meaning(rt, op, root, []) == Ok(VBool(true))
  }

  // ---- scoping ------------------------------------------------------------

  /** Every slot read is bound, and a loop at depth d binds slot d. */
  predicate WellScoped(op: Op, depth: nat)
    decreases op
  {
    match op
    case OConst(_) => true
    case OSelf => true
    case OSlot(i) => i < depth
    case OList(items) => forall item <- items :: WellScoped(item, depth)
    case OUn(_, x) => WellScoped(x, depth)
    case OBin(_, l, r) => WellScoped(l, depth) && WellScoped(r, depth)
    case OShort(_, l, r) => WellScoped(l, depth) && WellScoped(r, depth)
    case OTernary(c, a, b) => WellScoped(c, depth) && WellScoped(a, depth) && WellScoped(b, depth)
    case OQuant(_, list, body, slot) => slot == depth && WellScoped(list, depth) && WellScoped(body, depth + 1)
  }

  /** Lowering numbers loop variables by depth, so what it produces is well scoped. */
  lemma {:induction false} LowerIsWellScoped(site: Site, vars: seq<string>, n: Node)
    ensures WellScoped(Lower(site, vars, n), |vars|)
    decreases n, 1
  {
    match n
    case Const(_) =>
    case Ident(_) =>
    case ListLit(elems) => LowerAllWellScoped(site, vars, elems);
    case Un(_, x) => LowerIsWellScoped(site, vars, x);
    case Bin(_, l, r) => LowerIsWellScoped(site, vars, l); LowerIsWellScoped(site, vars, r);
    case Short(_, l, r) => LowerIsWellScoped(site, vars, l); LowerIsWellScoped(site, vars, r);
    case Ternary(c, a, b) =>
      LowerIsWellScoped(site, vars, c);
      LowerIsWellScoped(site, vars, a);
      LowerIsWellScoped(site, vars, b);
    case Quant(_, range, name, body) =>
      LowerIsWellScoped(site, vars, range);
      LowerIsWellScoped(site, vars + [name], body);
  }

  lemma {:induction false} LowerAllWellScoped(site: Site, vars: seq<string>, ns: seq<Node>)
    ensures forall op <- LowerAll(site, vars, ns) :: WellScoped(op, |vars|)
    decreases ns, 0
  {
    if ns != [] {
      LowerIsWellScoped(site, vars, ns[0]);
      LowerAllWellScoped(site, vars, ns[1..]);
    }
  }

  // ---- the shared slot vector ---------------------------------------------

  class Evaluator {
    const rt: Platform
    const root: Value
    var slots: seq<Value>

    constructor (rt: Platform, root: Value)
      ensures this.rt == rt && this.root == root && slots == []
    {
      this.rt, this.root := rt, root;
      slots := [];
    }

    /** Evaluates `op` below `depth` bound variables: the result is the lexically
        scoped meaning with the first `depth` slots as its environment, and those
        slots are left as they were. */
    method Eval(op: Op, ghost depth: nat) returns (r: Outcome)
      requires WellScoped(op, depth) && depth <= |slots|
      modifies this
      ensures r == Meaning(rt, op, root, old(slots[..depth]))
      ensures depth <= |slots| && slots[..depth] == old(slots[..depth])
      decreases op, 1
    {
      match op
      case OConst(lit) => r := Ok(LitValue(lit));
      case OSelf => r := Ok(root);
      case OSlot(i) => r := Ok(slots[i]);
      case OList(items) => r := EvalList(items, depth);
      case OUn(u, x) =>
        r := Eval(x, depth);
        if r.Ok? {
          r := Unary(rt, u, r.value);
        }
      case OBin(b, left, right) =>
        r := Eval(left, depth);
        if r.Ok? {
          var a := r.value;
          r := Eval(right, depth);
          if r.Ok? {
            r := Binary(rt, b, a, r.value);
          }
        }
      case OShort(and, left, right) =>
        r := Eval(left, depth);
        r := AsBool(r);
        if r.Ok? && r.value.b == and {
          r := Eval(right, depth);
          r := AsBool(r);
        }
      case OTernary(c, a, b) =>
        r := Eval(c, depth);
        r := AsBool(r);
        if r.Ok? {
          if r.value.b {
            r := Eval(a, depth);
          } else {
            r := Eval(b, depth);
          }
        }
      case OQuant(_, _, _, _) => r := EvalQuant(op, depth);
    }

    method EvalList(items: seq<Op>, ghost depth: nat) returns (r: Outcome)
      requires depth <= |slots| && forall item <- items :: WellScoped(item, depth)
      modifies this
      ensures r == Meaning(rt, OList(items), root, old(slots[..depth]))
      ensures depth <= |slots| && slots[..depth] == old(slots[..depth])
      decreases items, 0
    {
      var out: seq<Value> := [];
      ghost var env := slots[..depth];
      PrependNothing(MeaningAll(rt, items, root, env));
      assert items[0..] == items;
      for i := 0 to |items|
        invariant depth <= |slots| && slots[..depth] == env
        invariant MeaningAll(rt, items, root, env) == Prepend(out, MeaningAll(rt, items[i..], root, env))
      {
        var v := Eval(items[i], depth);
        assert items[i..][0] == items[i] && items[i..][1..] == items[i + 1..];
        if v.Err? {
          return v;
        }
        PrependMore(out, v.value, MeaningAll(rt, items[i + 1..], root, env));
        out := out + [v.value];
      }
      assert items[|items|..] == [] && out + [] == out;
      r := Ok(VList(out));
    }

    /** Grows the vector to hold the loop's slot, then overwrites that slot with
        one item after another. */
    method EvalQuant(op: Op, ghost depth: nat) returns (r: Outcome)
      requires op.OQuant? && WellScoped(op, depth) && depth <= |slots|
      modifies this
      ensures r == Meaning(rt, op, root, old(slots[..depth]))
      ensures depth <= |slots| && slots[..depth] == old(slots[..depth])
      decreases op, 0
    {
      ghost var env := slots[..depth];
      r := Eval(op.list, depth);
      if r.Err? {
        return;
      }
      if !r.value.VList? {
        return Err(Mismatch);
      }
      var items := r.value.items;
      var slot := op.loopSlot;
      if |slots| <= slot {
        slots := slots + seq(slot + 1 - |slots|, _ => VBool(false));
      }
      assert items[0..] == items;
      for i := 0 to |items|
        invariant slot < |slots| && slots[..depth] == env
        invariant MeaningQuant(rt, op.all, items, op.body, root, env) == MeaningQuant(rt, op.all, items[i..], op.body, root, env)
      {
        slots := slots[slot := items[i]];
        assert slots[..depth + 1] == env + [items[i]];
        r := Eval(op.body, depth + 1);
        assert slots[..depth] == slots[..depth + 1][..depth];
        assert items[i..][0] == items[i] && items[i..][1..] == items[i + 1..];
        r := AsBool(r);
        if r.Err? || r.value.b != op.all {
          return;
        }
      }
      r := Ok(VBool(op.all));
    }
  }

  ghost function Prepend(vs: seq<Value>, r: Result<seq<Value>, Why>): Result<seq<Value>, Why> {
    if r.Ok? then Ok(vs + r.value) else r
  }

  lemma PrependNothing(r: Result<seq<Value>, Why>)
    ensures Prepend([], r) == r
  {
    assert r.Ok? ==> [] + r.value == r.value;
  }

  lemma PrependMore(vs: seq<Value>, v: Value, r: Result<seq<Value>, Why>)
    ensures Prepend(vs, Prepend([v], r)) == Prepend(vs + [v], r)
  {
    assert r.Ok? ==> vs + ([v] + r.value) == vs + [v] + r.value;
  }

  /** What the runtime does with one rule: a fresh evaluator with no slots. */
  method CheckRule(rt: Platform, op: Op, root: Value) returns (holds: bool)
    requires WellScoped(op, 0)
    ensures holds == Holds(rt, op, root)
  {
    var evaluator := new Evaluator(rt, root);
    var r := evaluator.Eval(op, 0);
    holds := r == Ok(VBool(true));
  }
}
