/** The checker: which expressions have a type, and which one. */
module RuleTypes {

  import opened Wrappers
  import opened Arith64
  import opened RuleLang

  /** Loop variables in scope, outermost first. */
  type Scope = seq<(string, Type)>

  function Names(scope: Scope): (r: seq<string>)
    ensures |r| == |scope| && forall i :: 0 <= i < |r| ==> r[i] == scope[i].0
  {
    seq(|scope|, i requires 0 <= i < |scope| => scope[i].0)
  }

  function InferLit(lit: Lit): Option<Type> {
    match lit
    case IntLit(i) => if Fits(i) then Some(TInt) else None
    case DblLit(d) => if d.Fin? then Some(TDouble) else None
    case StrLit(s) => if Fits(|s|) then Some(TString) else None
    case EnumLit(e, ordinal) => if ordinal < 0x8000_0000 then Some(TEnum(e)) else None
    case BoolLit(_) => Some(TBool)
  }

  function InferIdent(site: Site, scope: Scope, name: string): Option<Type> {
    match Find(Names(scope), name)
    case Some(i) => Some(scope[i].1)
    case None =>
      if name == "value" && site.field.Some? then Some(TypeOf(site.field.value))
      else if name == "self" then Some(TMsg(site.message))
      else None
  }

  predicate FieldOf(schema: Schema, t: Type, f: Field) {
    t.TMsg? && t.message in schema && f in schema[t.message]
  }

  function InferUn(schema: Schema, u: NodeUn, t: Type): Option<Type> {
    match u
    case Select(f) => if FieldOf(schema, t, f) then Some(TypeOf(f)) else None
    case Has(f) => if FieldOf(schema, t, f) then Some(TBool) else None
    case Size(ofString) =>
      if (t.TString? || t.TBytes? || t.TList? || t.TMap?) && ofString == t.TString? then Some(TInt) else None
    case Matches(_) => if t.TString? then Some(TBool) else None
    case ToInt(fromDouble) => if (if fromDouble then t.TDouble? else t.TInt?) then Some(TInt) else None
    case ToDouble(fromInt) => if (if fromInt then t.TInt? else t.TDouble?) then Some(TDouble) else None
    case Not => if t.TBool? then Some(TBool) else None
    case Neg(ofInt) => if (if ofInt then t.TInt? else t.TDouble?) then Some(t) else None
  }

  function InferBin(b: NodeBin, t: Type, u: Type): Option<Type> {
    match b
    case Index(ofMap) =>
      if !ofMap && t.TList? && u.TInt? then Some(t.elem)
      else if ofMap && t.TMap? && u.TString? then Some(t.elem)
      else None
    case StrTest(_) => if t.TString? && u.TString? then Some(TBool) else None
    case Compare(cmp) =>
      if cmp.Eq? || cmp.Ne? then (if t == u && Comparable(t) then Some(TBool) else None)
      else if t == u && (t.TInt? || t.TDouble?) then Some(TBool)
      else None
    case In(inMap) =>
      if !inMap && u.TList? && u.elem == t && Comparable(t) then Some(TBool)
      else if inMap && u.TMap? && t.TString? then Some(TBool)
      else None
    case ArithInt(_) => if t.TInt? && u.TInt? then Some(TInt) else None
    case ArithDbl(_) => if t.TDouble? && u.TDouble? then Some(TDouble) else None
  }

  /** The checker's answer for an expression below the loop variables of `scope`. */
  function Infer(schema: Schema, site: Site, scope: Scope, n: Node): Option<Type>
    decreases n, 1
  {
    match n
    case Const(lit) => InferLit(lit)
    case Ident(name) => InferIdent(site, scope, name)
    case ListLit(elems) =>
      if elems == [] || !Fits(|elems|) then None
      else
        var t := Infer(schema, site, scope, elems[0]);
        if t.Some? && !t.value.TMsg? && !t.value.TList? && !t.value.TMap? && InferAll(schema, site, scope, elems, t.value)
        then Some(TList(t.value)) else None
    case Un(u, x) =>
      var t := Infer(schema, site, scope, x);
      if t.None? then None else InferUn(schema, u, t.value)
    case Bin(b, l, r) =>
      var t := Infer(schema, site, scope, l);
      var u := Infer(schema, site, scope, r);
      if t.None? || u.None? then None else InferBin(b, t.value, u.value)
    case Short(_, l, r) =>
      if Infer(schema, site, scope, l) == Some(TBool) == Infer(schema, site, scope, r) then Some(TBool) else None
    case Ternary(c, a, b) =>
      var t := Infer(schema, site, scope, a);
      if Infer(schema, site, scope, c) == Some(TBool) && t == Infer(schema, site, scope, b) && t.Some? && Comparable(t.value)
      then t else None
    case Quant(_, range, name, body) =>
      var t := Infer(schema, site, scope, range);
      if t.Some? && t.value.TList? && Infer(schema, site, scope + [(name, t.value.elem)], body) == Some(TBool)
      then Some(TBool) else None
  }

  predicate InferAll(schema: Schema, site: Site, scope: Scope, ns: seq<Node>, t: Type)
    decreases ns, 0
  {
    ns != [] ==> Infer(schema, site, scope, ns[0]) == Some(t) && InferAll(schema, site, scope, ns[1..], t)
  }

  /** A checked rule: it is bool, and a field rule's field belongs to its message. */
  predicate CheckedRule(schema: Schema, site: Site, n: Node) {
    && WellFormed(schema)
    && SiteOk(schema, site)
    && Infer(schema, site, [], n) == Some(TBool)
  }

  predicate SiteOk(schema: Schema, site: Site) {
    site.message in schema && (site.field.Some? ==> site.field.value in schema[site.message])
  }
}
