/**
 The rule language after type checking: schema fields, checked expressions, the
 op trees the embedded evaluators run, and the lowering from one to the other.
 */
module RuleLang {

  import opened Wrappers
  import opened Arith64

  // ---- doubles ------------------------------------------------------------

  /** A double, up to the sign of zero, which no rule can observe. */
  datatype Double = Fin(r: real) | PosInf | NegInf | NaN

  /** What the model takes from the platform: rounding, and regular expressions. */
  datatype Platform = Platform(round: real -> Double, matches: (string, string) -> bool)

  /** Rounding a 64-bit integer gives a number. */
  ghost predicate PlatformOk(rt: Platform) {
    forall i: int :: Fits(i) ==> !rt.round(i as real).NaN?
  }

  datatype DblOp = FAdd | FSub | FMul | FDiv

  predicate Positive(x: Double) {
    x.PosInf? || (x.Fin? && x.r > 0.0)
  }

  predicate IsZero(x: Double) {
    x == Fin(0.0)
  }

  function Signed(positive: bool): Double {
    if positive then PosInf else NegInf
  }

  function NegDouble(x: Double): Double {
    match x
    case Fin(r) => Fin(-r)
    case PosInf => NegInf
    case NegInf => PosInf
    case NaN => NaN
  }

  /** IEEE arithmetic; a division by zero is rejected before it gets here. */
  function DblArith(rt: Platform, op: DblOp, x: Double, y: Double): Double {
    if x.NaN? || y.NaN? then NaN
    else
      match op
      case FAdd =>
        if x.Fin? && y.Fin? then rt.round(x.r + y.r) else if x.Fin? then y else if y.Fin? || x == y then x else NaN
      case FSub =>
        if x.Fin? && y.Fin? then rt.round(x.r - y.r) else if x.Fin? then NegDouble(y) else if y.Fin? || x != y then x else NaN
      case FMul =>
        if x.Fin? && y.Fin? then rt.round(x.r * y.r)
        else if IsZero(x) || IsZero(y) then NaN
        else Signed(Positive(x) == Positive(y))
      case FDiv =>
        if x.Fin? && y.Fin? then (if y.r == 0.0 then NaN else rt.round(x.r / y.r))
        else if x.Fin? then Fin(0.0)
        else if y.Fin? then Signed(Positive(x) == (Positive(y) || IsZero(y)))
        else NaN
  }

  predicate DblLess(x: Double, y: Double) {
    !x.NaN? && !y.NaN? && !x.PosInf? && !y.NegInf? && (x.NegInf? || y.PosInf? || (x.Fin? && y.Fin? && x.r < y.r)) && x != y
  }

  /** IEEE equality: NaN equals nothing. */
  predicate DblEqual(x: Double, y: Double) {
    !x.NaN? && x == y
  }

  /** Truncation toward zero. */
  function Truncate(r: real): int {
    if r < 0.0 then -((-r).Floor) else r.Floor
  }

  /** Whether a double converts to a 64-bit integer. */
  predicate IntSized(x: Double) {
    x.Fin? && -9223372036854775808.0 <= x.r < 9223372036854775808.0
  }

  // ---- schema -------------------------------------------------------------

  datatype Scalar = SString | SBool | SInt32 | SUint32 | SInt64 | SFloat32 | SFloat64 | SBytes

  datatype FieldType = FScalar(scalar: Scalar) | FEnum(enumName: string) | FMessage(message: string) | FMap(elem: FieldType)

  datatype Field = Field(name: string, typ: FieldType, repeated: bool, optional: bool)

  type Schema = map<string, seq<Field>>

  predicate ValueType(t: FieldType) {
    !t.FMap?
  }

  /** Distinct field names; a map is neither repeated nor optional and holds plain values. */
  predicate WellFormed(schema: Schema) {
    forall name <- schema ::
      && (forall i, j :: 0 <= i < j < |schema[name]| ==> schema[name][i].name != schema[name][j].name)
      && (forall f <- schema[name] :: FieldOk(schema, f))
  }

  predicate FieldOk(schema: Schema, f: Field) {
    && (f.typ.FMap? ==> !f.repeated && !f.optional && ValueType(f.typ.elem))
    && (f.typ.FMessage? ==> f.typ.message in schema)
    && (f.typ.FMap? && f.typ.elem.FMessage? ==> f.typ.elem.message in schema)
  }

  /** Read through a pointer: absent is distinct from zero. */
  predicate PointerBacked(f: Field) {
    !f.repeated && (f.optional || f.typ.FMessage?)
  }

  // ---- types --------------------------------------------------------------

  datatype Type =
    | TBool | TInt | TDouble | TString | TBytes
    | TEnum(enumName: string) | TList(elem: Type) | TMap(elem: Type) | TMsg(message: string)

  function BaseType(t: FieldType): Type {
    match t
    case FScalar(SString) => TString
    case FScalar(SBool) => TBool
    case FScalar(SInt32) => TInt
    case FScalar(SUint32) => TInt
    case FScalar(SInt64) => TInt
    case FScalar(SFloat32) => TDouble
    case FScalar(SFloat64) => TDouble
    case FScalar(SBytes) => TBytes
    case FEnum(e) => TEnum(e)
    case FMessage(m) => TMsg(m)
    case FMap(elem) => TMap(BaseType(elem))
  }

  function TypeOf(f: Field): Type {
    if f.repeated then TList(BaseType(f.typ)) else BaseType(f.typ)
  }

  /** Values `==` and `in` compare. */
  predicate Comparable(t: Type) {
    t.TBool? || t.TInt? || t.TDouble? || t.TString? || t.TEnum?
  }

  // ---- expressions --------------------------------------------------------

  datatype CmpOp = Eq | Ne | Lt | Le | Gt | Ge

  datatype StrFn = StartsWith | EndsWith | Contains

  datatype Lit = IntLit(i: int) | DblLit(d: Double) | StrLit(s: string) | EnumLit(enumName: string, ordinal: nat) | BoolLit(b: bool)

  /** One-operand forms. Where a compiler asks for the operand's type, the answer
      the checker gave is part of the node. */
  datatype NodeUn =
    | Select(field: Field)
    | Has(field: Field)
    | Size(ofString: bool)
    | Matches(pattern: string)
    | ToInt(fromDouble: bool)
    | ToDouble(fromInt: bool)
    | Not
    | Neg(ofInt: bool)

  /** Forms that evaluate both operands. */
  datatype NodeBin =
    | Index(ofMap: bool)
    | StrTest(fn: StrFn)
    | Compare(cmp: CmpOp)
    | In(inMap: bool)
    | ArithInt(iop: IntOp)
    | ArithDbl(dop: DblOp)

  /** A checked expression. */
  datatype Node =
    | Const(lit: Lit)
    | Ident(name: string)
    | ListLit(elems: seq<Node>)
    | Un(un: NodeUn, x: Node)
    | Bin(bin: NodeBin, l: Node, r: Node)
    | Short(and: bool, l: Node, r: Node)
    | Ternary(cond: Node, thn: Node, els: Node)
    | Quant(all: bool, range: Node, name: string, body: Node)

  /** Where a rule is written: on a message, or on one of its fields. */
  datatype Site = Site(message: string, field: Option<Field>)

  /** The innermost variable called `name`, counting from the outermost. */
  function Find(vars: seq<string>, name: string): (r: Option<nat>)
    ensures r.Some? ==> r.value < |vars| && vars[r.value] == name && forall j :: r.value < j < |vars| ==> vars[j] != name
    ensures r.None? ==> name !in vars
  {
    if vars == [] then None
    else if vars[|vars| - 1] == name then Some(|vars| - 1)
    else Find(vars[..|vars| - 1], name)
  }

  // ---- op trees -----------------------------------------------------------

  datatype Zero = ZStr | ZInt | ZDouble | ZBool | ZBytes | ZList | ZMap | ZMsg

  datatype OpUn =
    | OSelect(name: string, zero: Zero)
    | OHas(name: string, ptr: bool)
    | OSize
    | OMatches(pattern: string)
    | OToInt
    | OToDouble
    | ONot
    | ONegInt
    | ONegDouble

  datatype OpBin =
    | OIndexList
    | OIndexMap
    | OStrTest(fn: StrFn)
    | OCompare(cmp: CmpOp)
    | OIn
    | OArithInt(iop: IntOp)
    | OArithDbl(dop: DblOp)

  datatype OpLit = OInt(i: int) | ODbl(d: Double) | OStr(s: string) | OBool(b: bool)

  datatype Op =
    | OConst(lit: OpLit)
    | OSelf
    | OSlot(slot: nat)
    | OList(items: seq<Op>)
    | OUn(un: OpUn, x: Op)
    | OBin(bin: OpBin, l: Op, r: Op)
    | OShort(and: bool, l: Op, r: Op)
    | OTernary(cond: Op, thn: Op, els: Op)
    | OQuant(all: bool, list: Op, body: Op, loopSlot: nat)

  function ZeroFor(f: Field): Zero {
    if f.repeated then ZList
    else
      match f.typ
      case FMap(_) => ZMap
      case FMessage(_) => ZMsg
      case FEnum(_) => ZInt
      case FScalar(SString) => ZStr
      case FScalar(SBool) => ZBool
      case FScalar(SFloat32) => ZDouble
      case FScalar(SFloat64) => ZDouble
      case FScalar(SBytes) => ZBytes
      case FScalar(_) => ZInt
  }

  function LowerLit(lit: Lit): OpLit {
    match lit
    case IntLit(i) => OInt(i)
    case DblLit(d) => ODbl(d)
    case StrLit(s) => OStr(s)
    case EnumLit(_, ordinal) => OInt(ordinal)
    case BoolLit(b) => OBool(b)
  }

  /** A name is the innermost loop variable so called, else `value` is the rule's
      field, else it is the message. */
  function LowerIdent(site: Site, vars: seq<string>, name: string): Op {
    match Find(vars, name)
    case Some(i) => OSlot(i)
    case None =>
      if name == "value" && site.field.Some? then OUn(OSelect(site.field.value.name, ZeroFor(site.field.value)), OSelf)
      else OSelf
  }

  /** Converting an int to an int, or a double to a double, lowers to nothing. */
  function LowerUn(u: NodeUn): Option<OpUn> {
    match u
    case Select(f) => Some(OSelect(f.name, ZeroFor(f)))
    case Has(f) => Some(OHas(f.name, PointerBacked(f)))
    case Size(_) => Some(OSize)
    case Matches(pattern) => Some(OMatches(pattern))
    case ToInt(fromDouble) => if fromDouble then Some(OToInt) else None
    case ToDouble(fromInt) => if fromInt then Some(OToDouble) else None
    case Not => Some(ONot)
    case Neg(ofInt) => Some(if ofInt then ONegInt else ONegDouble)
  }

  function LowerBin(b: NodeBin): OpBin {
    match b
    case Index(ofMap) => if ofMap then OIndexMap else OIndexList
    case StrTest(fn) => OStrTest(fn)
    case Compare(cmp) => OCompare(cmp)
    case In(_) => OIn
    case ArithInt(iop) => OArithInt(iop)
    case ArithDbl(dop) => OArithDbl(dop)
  }

  function Lower(site: Site, vars: seq<string>, n: Node): Op
    decreases n, 1
  {
    match n
    case Const(lit) => OConst(LowerLit(lit))
    case Ident(name) => LowerIdent(site, vars, name)
    case ListLit(elems) => OList(LowerAll(site, vars, elems))
    case Un(u, x) =>
      (match LowerUn(u)
       case Some(op) => OUn(op, Lower(site, vars, x))
       case None => Lower(site, vars, x))
    case Bin(b, l, r) => OBin(LowerBin(b), Lower(site, vars, l), Lower(site, vars, r))
    case Short(and, l, r) => OShort(and, Lower(site, vars, l), Lower(site, vars, r))
    case Ternary(c, a, b) => OTernary(Lower(site, vars, c), Lower(site, vars, a), Lower(site, vars, b))
    case Quant(all, range, name, body) => OQuant(all, Lower(site, vars, range), Lower(site, vars + [name], body), |vars|)
  }

  function LowerAll(site: Site, vars: seq<string>, ns: seq<Node>): (ops: seq<Op>)
    ensures |ops| == |ns|
    decreases ns, 0
  {
    if ns == [] then [] else [Lower(site, vars, ns[0])] + LowerAll(site, vars, ns[1..])
  }
}
