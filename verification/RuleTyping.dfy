/**
 The rules of typing, as a relation between expressions and types. The checker decides
 it: it accepts whatever has a type, and nothing has two.
 */
module RuleTyping {

  import opened Wrappers
  import opened Arith64
  import opened RuleLang
  import opened RuleTypes

  /** Types of literals: numbers and texts in range, finite doubles. */
  predicate LitHas(lit: Lit, t: Type) {
    match t
    case TInt => lit.IntLit? && Fits(lit.i)
    case TDouble => lit.DblLit? && lit.d.Fin?
    case TString => lit.StrLit? && Fits(|lit.s|)
    case TBool => lit.BoolLit?
    case TEnum(e) => lit.EnumLit? && lit.enumName == e && lit.ordinal < 0x8000_0000
    case _ => false
  }

  predicate Sized(t: Type) {
    t.TString? || t.TBytes? || t.TList? || t.TMap?
  }

  predicate Numeric(t: Type) {
    t == TInt || t == TDouble
  }

  /** From the operand's type to the result's. */
  predicate UnRule(schema: Schema, u: NodeUn, t: Type, r: Type) {
    || (u.Select? && FieldOf(schema, t, u.field) && r == TypeOf(u.field))
    || (u.Has? && FieldOf(schema, t, u.field) && r == TBool)
    || (u.Size? && Sized(t) && u.ofString == (t == TString) && r == TInt)
    || (u.Matches? && t == TString && r == TBool)
    || (u.ToInt? && Numeric(t) && u.fromDouble == (t == TDouble) && r == TInt)
    || (u.ToDouble? && Numeric(t) && u.fromInt == (t == TInt) && r == TDouble)
    || (u == Not && t == TBool && r == TBool)
    || (u.Neg? && Numeric(t) && u.ofInt == (t == TInt) && r == t)
  }

  predicate BinRule(b: NodeBin, t: Type, u: Type, r: Type) {
    || (b == Index(false) && t == TList(r) && u == TInt)
    || (b == Index(true) && t == TMap(r) && u == TString)
    || (b.StrTest? && t == u == TString && r == TBool)
    || (b.Compare? && (b.cmp.Eq? || b.cmp.Ne?) && t == u && Comparable(t) && r == TBool)
    || (b.Compare? && !(b.cmp.Eq? || b.cmp.Ne?) && t == u && Numeric(t) && r == TBool)
    || (b == In(false) && u == TList(t) && Comparable(t) && r == TBool)
    || (b == In(true) && t == TString && u.TMap? && r == TBool)
    || (b.ArithInt? && t == u == r == TInt)
    || (b.ArithDbl? && t == u == r == TDouble)
  }

  /** The innermost loop variable of the name, else the rule's field, else the message. */
  ghost predicate NameHas(site: Site, scope: Scope, name: string, t: Type) {
    if exists i :: 0 <= i < |scope| && scope[i].0 == name then
      exists i :: 0 <= i < |scope| && scope[i] == (name, t) && forall j :: i < j < |scope| ==> scope[j].0 != name
    else if name == "value" && site.field.Some? then t == TypeOf(site.field.value)
    else name == "self" && t == TMsg(site.message)
  }

  ghost predicate Has(schema: Schema, site: Site, scope: Scope, n: Node, t: Type)
    decreases n
  {
    match n
    case Const(lit) => LitHas(lit, t)
    case Ident(name) => NameHas(site, scope, name, t)
    case ListLit(elems) =>
      && t.TList? && 0 < |elems| && Fits(|elems|) && (Comparable(t.elem) || t.elem == TBytes)
      && forall x <- elems :: Has(schema, site, scope, x, t.elem)
    case Un(u, x) => exists r :: Has(schema, site, scope, x, r) && UnRule(schema, u, r, t)
    case Bin(b, l, r) => exists p, q :: Has(schema, site, scope, l, p) && Has(schema, site, scope, r, q) && BinRule(b, p, q, t)
    case Short(_, l, r) => t == TBool && Has(schema, site, scope, l, TBool) && Has(schema, site, scope, r, TBool)
    case Ternary(c, a, b) =>
      Comparable(t) && Has(schema, site, scope, c, TBool) && Has(schema, site, scope, a, t) && Has(schema, site, scope, b, t)
    case Quant(_, range, name, body) =>
      t == TBool && exists e :: Has(schema, site, scope, range, TList(e)) && Has(schema, site, scope + [(name, e)], body, TBool)
  }

  lemma LitExactly(lit: Lit, t: Type)
    ensures InferLit(lit) == Some(t) <==> LitHas(lit, t)
  {
  }

  lemma UnExactly(schema: Schema, u: NodeUn, t: Type, r: Type)
    ensures InferUn(schema, u, t) == Some(r) <==> UnRule(schema, u, t, r)
  {
  }

  lemma BinExactly(b: NodeBin, t: Type, u: Type, r: Type)
    ensures InferBin(b, t, u) == Some(r) <==> BinRule(b, t, u, r)
  {
  }

  lemma NameExactly(site: Site, scope: Scope, name: string, t: Type)
    ensures InferIdent(site, scope, name) == Some(t) <==> NameHas(site, scope, name, t)
  {
    var names := Names(scope);
    var found := Find(names, name);
    if found.Some? {
      var i := found.value;
      assert scope[i].0 == names[i] == name;
      assert forall j :: 0 <= j < |scope| ==> names[j] == scope[j].0;
      assert forall j :: i < j < |scope| ==> scope[j].0 != name;
    } else {
      assert forall j :: 0 <= j < |scope| ==> names[j] == scope[j].0 && names[j] in names;
    }
  }

  /** The checker's answer is the type an expression has, and it gives up exactly on
      those that have none. */
  lemma {:induction false} InferExactly(schema: Schema, site: Site, scope: Scope, n: Node, t: Type)
    ensures Infer(schema, site, scope, n) == Some(t) <==> Has(schema, site, scope, n, t)
    decreases n
  {
    match n
    case Const(lit) => LitExactly(lit, t);
    case Ident(name) => NameExactly(site, scope, name, t);
    case ListLit(elems) => ListExactly(schema, site, scope, elems, t);
    case Un(u, x) =>
      forall r ensures Infer(schema, site, scope, x) == Some(r) <==> Has(schema, site, scope, x, r) {
        InferExactly(schema, site, scope, x, r);
      }
      forall r ensures InferUn(schema, u, r) == Some(t) <==> UnRule(schema, u, r, t) {
        UnExactly(schema, u, r, t);
      }
    case Bin(b, l, r) =>
      forall p ensures Infer(schema, site, scope, l) == Some(p) <==> Has(schema, site, scope, l, p) {
        InferExactly(schema, site, scope, l, p);
      }
      forall q ensures Infer(schema, site, scope, r) == Some(q) <==> Has(schema, site, scope, r, q) {
        InferExactly(schema, site, scope, r, q);
      }
      forall p, q ensures InferBin(b, p, q) == Some(t) <==> BinRule(b, p, q, t) {
        BinExactly(b, p, q, t);
      }
    case Short(_, l, r) =>
      InferExactly(schema, site, scope, l, TBool);
      InferExactly(schema, site, scope, r, TBool);
    case Ternary(c, a, b) =>
      InferExactly(schema, site, scope, c, TBool);
      InferExactly(schema, site, scope, a, t);
      InferExactly(schema, site, scope, b, t);
    case Quant(_, range, name, body) =>
      forall e ensures Infer(schema, site, scope, range) == Some(TList(e)) <==> Has(schema, site, scope, range, TList(e)) {
        InferExactly(schema, site, scope, range, TList(e));
      }
      forall e ensures Infer(schema, site, scope + [(name, e)], body) == Some(TBool) <==> Has(schema, site, scope + [(name, e)], body, TBool) {
        InferExactly(schema, site, scope + [(name, e)], body, TBool);
      }
  }

  lemma {:induction false} ListExactly(schema: Schema, site: Site, scope: Scope, elems: seq<Node>, t: Type)
    ensures Infer(schema, site, scope, ListLit(elems)) == Some(t) <==> Has(schema, site, scope, ListLit(elems), t)
    decreases elems
  {
    if elems != [] {
      forall x, e | x in elems ensures Infer(schema, site, scope, x) == Some(e) <==> Has(schema, site, scope, x, e) {
        InferExactly(schema, site, scope, x, e);
      }
      assert elems[0] in elems;
      forall e ensures InferAll(schema, site, scope, elems, e) <==> forall x <- elems :: Infer(schema, site, scope, x) == Some(e) {
        AllExactly(schema, site, scope, elems, e);
      }
    }
  }

  lemma {:induction false} AllExactly(schema: Schema, site: Site, scope: Scope, elems: seq<Node>, e: Type)
    ensures InferAll(schema, site, scope, elems, e) <==> forall x <- elems :: Infer(schema, site, scope, x) == Some(e)
    decreases elems
  {
    if elems != [] {
      assert elems[0] in elems && forall x :: x in elems <==> x == elems[0] || x in elems[1..];
      AllExactly(schema, site, scope, elems[1..], e);
    }
  }
}
