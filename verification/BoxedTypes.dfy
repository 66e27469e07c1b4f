/**
 Generated Rust types of finite size. A message inside a oneof variant is stored
 inline unless `boxedVariant` says otherwise; the search behind it must find
 every cycle that inline storage would close.
 */
module BoxedTypes {

  import opened Wrappers

  type Msg = string

  datatype Type = Scalar | MessageType(message: Msg) | MapType(value: Type)

  datatype Field =
    | Oneof(variants: seq<Type>)
    | Plain(typ: Type, repeated: bool, optional: bool, nullable: bool)

  type Schema = map<Msg, seq<Field>>

  predicate Resolved(schema: Schema, t: Type) {
    match t
    case Scalar => true
    case MessageType(m) => m in schema
    case MapType(value) => Resolved(schema, value)
  }

  predicate WellFormed(schema: Schema) {
    forall m <- schema, f <- schema[m] ::
      match f
      case Oneof(variants) => forall t <- variants :: Resolved(schema, t)
      case Plain(t, _, _, _) => Resolved(schema, t)
  }

  // ---- reachability through oneofs ----------------------------------------

  /** `m` has a oneof with `n` as a variant. */
  predicate Variant(schema: Schema, m: Msg, n: Msg) {
    m in schema && exists f :: f in schema[m] && f.Oneof? && MessageType(n) in f.variants
  }

  predicate OneofPath(schema: Schema, p: seq<Msg>) {
    p != [] && forall i {:trigger p[i]} :: 0 <= i < |p| - 1 ==> Variant(schema, p[i], p[i + 1])
  }

  ghost predicate Reaches(schema: Schema, m: Msg, owner: Msg) {
    exists p :: OneofPath(schema, p) && p[0] == m && p[|p| - 1] == owner
  }

  lemma ReachesSelf(schema: Schema, m: Msg)
    ensures Reaches(schema, m, m)
  {
    var p := [m];
    assert OneofPath(schema, p) && p[0] == m && p[|p| - 1] == m;
  }

  lemma ReachesVia(schema: Schema, m: Msg, n: Msg, owner: Msg)
    requires Variant(schema, m, n) && Reaches(schema, n, owner)
    ensures Reaches(schema, m, owner)
  {
    var p :| OneofPath(schema, p) && p[0] == n && p[|p| - 1] == owner;
    var q := [m] + p;
    forall i {:trigger q[i]} | 0 <= i < |q| - 1
      ensures Variant(schema, q[i], q[i + 1])
    {
      if i > 0 {
        assert q[i] == p[i - 1] && q[i + 1] == p[i];
      }
    }
    assert OneofPath(schema, q) && q[0] == m && q[|q| - 1] == owner;
  }

  /** A set closed under variants is not left. */
  lemma {:induction false} ClosedUnderVariants(schema: Schema, s: set<Msg>, p: seq<Msg>)
    requires OneofPath(schema, p) && p[0] in s
    requires forall m, n :: m in s && Variant(schema, m, n) ==> n in s
    ensures p[|p| - 1] in s
    decreases |p|
  {
    if |p| > 1 {
      var rest := p[1..];
      assert forall i {:trigger rest[i]} :: 0 <= i < |rest| ==> rest[i] == p[i + 1];
      assert Variant(schema, p[0], p[1]);
      ClosedUnderVariants(schema, s, rest);
    }
  }

  // ---- the search ---------------------------------------------------------

  class Search {
    const schema: Schema
    const owner: Msg
    var seen: set<Msg>

    constructor (schema: Schema, owner: Msg)
      requires WellFormed(schema)
      ensures this.schema == schema && this.owner == owner && seen == {}
    {
      this.schema, this.owner := schema, owner;
      seen := {};
    }

    /** Depth-first: true as soon as the owner is met; otherwise everything newly
        seen has all its variants seen. */
    method Visit(message: Msg) returns (found: bool)
      requires WellFormed(schema) && message in schema && seen <= schema.Keys && owner !in seen
      modifies `seen
      ensures old(seen) <= seen <= schema.Keys
      ensures found ==> Reaches(schema, message, owner)
      ensures !found ==> message in seen && owner !in seen
      ensures !found ==> forall m, n :: m in seen - old(seen) && Variant(schema, m, n) ==> n in seen
      decreases schema.Keys - seen
    {
      if message == owner {
        ReachesSelf(schema, owner);
        return true;
      }
      if message in seen {
        return false;
      }
      ghost var before := seen;
      seen := seen + {message};
      var fields := schema[message];
      for i := 0 to |fields|
        invariant before + {message} <= seen <= schema.Keys && owner !in seen
        invariant forall m, n :: m in seen - before - {message} && Variant(schema, m, n) ==> n in seen
        invariant forall k, n :: 0 <= k < i && fields[k].Oneof? && MessageType(n) in fields[k].variants ==> n in seen
      {
        if fields[i].Oneof? {
          var variants := fields[i].variants;
          for j := 0 to |variants|
            invariant before + {message} <= seen <= schema.Keys && owner !in seen
            invariant forall m, n :: m in seen - before - {message} && Variant(schema, m, n) ==> n in seen
            invariant forall k, n :: 0 <= k < i && fields[k].Oneof? && MessageType(n) in fields[k].variants ==> n in seen
            invariant forall k :: 0 <= k < j && variants[k].MessageType? ==> variants[k].message in seen
          {
            if variants[j].MessageType? {
              var next := variants[j].message;
              assert fields[i] in schema[message] && variants[j] in fields[i].variants;
              assert Resolved(schema, variants[j]);
              assert Variant(schema, message, next);
              assert message in schema.Keys - before && message !in schema.Keys - seen;
              found := Visit(next);
              if found {
                ReachesVia(schema, message, next, owner);
                return;
              }
            }
          }
        }
      }
      found := false;
    }
  }

  /** A variant is boxed exactly when its message reaches the owner through oneofs. */
  method BoxedVariant(schema: Schema, owner: Msg, variant: Type) returns (boxed: bool)
    requires WellFormed(schema) && Resolved(schema, variant)
    ensures boxed <==> Boxed(schema, owner, variant)
  {
    if !variant.MessageType? {
      return false;
    }
    var search := new Search(schema, owner);
    boxed := search.Visit(variant.message);
    if !boxed && Reaches(schema, variant.message, owner) {
      ghost var p :| OneofPath(schema, p) && p[0] == variant.message && p[|p| - 1] == owner;
      ClosedUnderVariants(schema, search.seen, p);
    }
  }

  ghost predicate Boxed(schema: Schema, owner: Msg, variant: Type) {
    variant.MessageType? && Reaches(schema, variant.message, owner)
  }

  // ---- the generated types ------------------------------------------------

  datatype Rust =
    | Leaf
    | Named(message: Msg)
    | Box(inner: Rust)
    | Vec(inner: Rust)
    | HashMap(inner: Rust)
    | OptionOf(inner: Rust)
    | Enum(variants: seq<Rust>)

  function RustType(t: Type): Rust {
    match t
    case Scalar => Leaf
    case MessageType(m) => Named(m)
    case MapType(value) => HashMap(RustType(value))
  }

  ghost function VariantType(schema: Schema, owner: Msg, t: Type): Rust {
    if Boxed(schema, owner, t) then Box(RustType(t)) else RustType(t)
  }

  ghost function FieldType(schema: Schema, owner: Msg, f: Field): Rust {
    match f
    case Oneof(variants) => OptionOf(Enum(seq(|variants|, i requires 0 <= i < |variants| => VariantType(schema, owner, variants[i]))))
    case Plain(t, repeated, optional, nullable) =>
      if repeated then Vec(RustType(t))
      else if t.MapType? then RustType(t)
      else
        var base := if t.MessageType? then Box(RustType(t)) else RustType(t);
        if nullable then OptionOf(OptionOf(base))
        else if optional || t.MessageType? then OptionOf(base)
        else base
  }

  /** How many ways a value has of being absent, and what it is when present. */
  function Absences(r: Rust): nat {
    if r.OptionOf? then 1 + Absences(r.inner) else 0
  }

  function Present(r: Rust): Rust {
    if r.OptionOf? then Present(r.inner) else r
  }

  /** A nullable field tells absent, null and set apart, an optional one and a message
      absent and set; lists and maps are never absent. A list holds its items in a
      vector, a message field its message in a box. */
  lemma PlainFieldStates(schema: Schema, owner: Msg, f: Field)
    requires f.Plain?
    ensures
      var collection := f.repeated || f.typ.MapType?;
      Absences(FieldType(schema, owner, f)) == if !collection && f.nullable then 2 else if !collection && (f.optional || f.typ.MessageType?) then 1 else 0
    ensures f.repeated ==> Present(FieldType(schema, owner, f)) == Vec(RustType(f.typ))
    ensures !f.repeated && f.typ.MessageType? ==> Present(FieldType(schema, owner, f)) == Box(Named(f.typ.message))
    ensures !f.repeated && !f.typ.MessageType? ==> Present(FieldType(schema, owner, f)) == RustType(f.typ)
  {
    var base := if f.typ.MessageType? then Box(RustType(f.typ)) else RustType(f.typ);
    assert Absences(base) == 0 && Present(base) == base;
    assert Absences(OptionOf(base)) == 1 && Present(OptionOf(base)) == base;
    assert Absences(OptionOf(OptionOf(base))) == 2 && Present(OptionOf(OptionOf(base))) == base;
  }

  /** Messages stored inside a value of this type without an allocation. */
  function Inline(r: Rust): set<Msg> {
    match r
    case Named(m) => {m}
    case OptionOf(inner) => Inline(inner)
    case Enum(variants) => set v, m | v in variants && m in Inline(v) :: m
    case Leaf => {}
    case Box(_) => {}
    case Vec(_) => {}
    case HashMap(_) => {}
  }

  ghost predicate Contains(schema: Schema, m: Msg, n: Msg) {
    m in schema && exists f :: f in schema[m] && n in Inline(FieldType(schema, m, f))
  }

  lemma PlainIsNotInline(schema: Schema, m: Msg, f: Field)
    ensures f.Plain? ==> Inline(FieldType(schema, m, f)) == {}
  {
    if f.Plain? {
      var base := if f.typ.MessageType? then Box(RustType(f.typ)) else RustType(f.typ);
      assert Inline(OptionOf(base)) == Inline(base) == Inline(OptionOf(OptionOf(base)));
    }
  }

  /** What is stored inline is a variant that does not lead back. */
  lemma InlineIsUnboxed(schema: Schema, m: Msg, n: Msg)
    requires Contains(schema, m, n)
    ensures Variant(schema, m, n) && !Reaches(schema, n, m)
  {
    var f :| f in schema[m] && n in Inline(FieldType(schema, m, f));
    PlainIsNotInline(schema, m, f);
    if f.Oneof? {
      var types := seq(|f.variants|, i requires 0 <= i < |f.variants| => VariantType(schema, m, f.variants[i]));
      assert Inline(FieldType(schema, m, f)) == Inline(Enum(types));
      var r :| r in types && n in Inline(r);
      var i :| 0 <= i < |types| && types[i] == r;
      var t := f.variants[i];
      assert r == VariantType(schema, m, t);
      assert t == MessageType(n) && !Boxed(schema, m, t);
      assert t in f.variants;
    }
  }

  /** And nothing is boxed without need: every variant that does not lead back is. */
  lemma UnboxedIsInline(schema: Schema, m: Msg, n: Msg)
    requires m in schema && Variant(schema, m, n) && !Reaches(schema, n, m)
    ensures Contains(schema, m, n)
  {
    var f :| f in schema[m] && f.Oneof? && MessageType(n) in f.variants;
    var types := seq(|f.variants|, i requires 0 <= i < |f.variants| => VariantType(schema, m, f.variants[i]));
    var i :| 0 <= i < |f.variants| && f.variants[i] == MessageType(n);
    assert types[i] == Named(n) && types[i] in types && n in Inline(types[i]);
    assert Inline(FieldType(schema, m, f)) == Inline(Enum(types));
    assert n in Inline(FieldType(schema, m, f));
  }

  // ---- finite size --------------------------------------------------------

  /** A chain of messages, each storing the next inline. */
  ghost predicate InlinePath(schema: Schema, p: seq<Msg>) {
    p != [] && forall i {:trigger p[i]} :: 0 <= i < |p| - 1 ==> Contains(schema, p[i], p[i + 1])
  }

  lemma {:induction false} InlinePathReaches(schema: Schema, p: seq<Msg>, i: nat, j: nat)
    requires InlinePath(schema, p) && i <= j < |p|
    ensures Reaches(schema, p[i], p[j])
    decreases j - i
  {
    if i == j {
      ReachesSelf(schema, p[i]);
    } else {
      InlinePathReaches(schema, p, i + 1, j);
      assert Contains(schema, p[i], p[i + 1]);
      InlineIsUnboxed(schema, p[i], p[i + 1]);
      ReachesVia(schema, p[i], p[i + 1], p[j]);
    }
  }

  /** Inline containment is acyclic: no chain meets a message twice. */
  lemma InlineIsAcyclic(schema: Schema, p: seq<Msg>, i: nat, j: nat)
    requires InlinePath(schema, p) && i < j < |p|
    ensures p[i] != p[j]
  {
    if p[i] == p[j] {
      InlinePathReaches(schema, p, i + 1, j);
      assert Contains(schema, p[i], p[i + 1]);
      InlineIsUnboxed(schema, p[i], p[i + 1]);
    }
  }

  /** The size of a type in words, looking through at most `fuel` messages. */
  ghost function Size(schema: Schema, r: Rust, fuel: nat): Option<nat>
    decreases fuel, r, 0
  {
    match r
    case Leaf => Some(1)
    case Box(_) => Some(1)
    case Vec(_) => Some(3)
    case HashMap(_) => Some(6)
    case OptionOf(inner) => Plus(Some(1), Size(schema, inner, fuel))
    case Enum(variants) => Plus(Some(1), Total(schema, variants, fuel))
    case Named(m) =>
      if fuel == 0 || m !in schema then None
      else Total(schema, StructTypes(schema, m), fuel - 1)
  }

  /** An upper bound for an enum, which overlays its variants; exact for a struct. */
  ghost function Total(schema: Schema, rs: seq<Rust>, fuel: nat): Option<nat>
    decreases fuel, rs, 1
  {
    if rs == [] then Some(0) else Plus(Size(schema, rs[0], fuel), Total(schema, rs[1..], fuel))
  }

  function Plus(x: Option<nat>, y: Option<nat>): Option<nat> {
    if x.Some? && y.Some? then Some(x.value + y.value) else None
  }

  /** Everything stored inline in a type has a size. */
  ghost predicate Covered(schema: Schema, r: Rust, fuel: nat) {
    forall m <- Inline(r) :: m in schema && fuel > 0 && StructSized(schema, m, fuel - 1)
  }

  lemma {:induction false} Sized(schema: Schema, r: Rust, fuel: nat)
    requires Covered(schema, r, fuel)
    ensures Size(schema, r, fuel).Some?
    decreases r, 0
  {
    match r
    case OptionOf(inner) =>
      assert Inline(inner) == Inline(r);
      Sized(schema, inner, fuel);
    case Enum(variants) =>
      forall v | v in variants
        ensures Inline(v) <= Inline(r)
      {
      }
      AllSized(schema, variants, fuel);
    case Named(m) => assert m in Inline(r);
    case Leaf =>
    case Box(_) =>
    case Vec(_) =>
    case HashMap(_) =>
  }

  lemma {:induction false} AllSized(schema: Schema, rs: seq<Rust>, fuel: nat)
    requires forall r <- rs :: Covered(schema, r, fuel)
    ensures Total(schema, rs, fuel).Some?
    decreases rs, 1
  {
    if rs != [] {
      Sized(schema, rs[0], fuel);
      AllSized(schema, rs[1..], fuel);
    }
  }

  ghost function StructTypes(schema: Schema, m: Msg): seq<Rust>
    requires m in schema
  {
    seq(|schema[m]|, i requires 0 <= i < |schema[m]| => FieldType(schema, m, schema[m][i]))
  }

  ghost predicate StructSized(schema: Schema, m: Msg, fuel: nat) {
    m in schema && Total(schema, StructTypes(schema, m), fuel).Some?
  }

  /** Something inline in a field of the last message extends the chain. */
  lemma ChainGrows(schema: Schema, p: seq<Msg>, r: Rust, n: Msg)
    requires WellFormed(schema) && InlinePath(schema, p) && p[|p| - 1] in schema
    requires r in StructTypes(schema, p[|p| - 1]) && n in Inline(r)
    ensures n in schema && InlinePath(schema, p + [n])
  {
    var m, q := p[|p| - 1], p + [n];
    var i :| 0 <= i < |schema[m]| && StructTypes(schema, m)[i] == r;
    assert schema[m][i] in schema[m] && Contains(schema, m, n);
    InlineIsUnboxed(schema, m, n);
    VariantDeclared(schema, m, n);
    forall k {:trigger q[k]} | 0 <= k < |q| - 1
      ensures Contains(schema, q[k], q[k + 1])
    {
      if k < |p| - 1 {
        assert q[k] == p[k] && q[k + 1] == p[k + 1];
      }
    }
  }

  /** Looking through as many messages as are not yet on the chain is enough. */
  lemma {:induction false} StructIsSized(schema: Schema, p: seq<Msg>, fuel: nat)
    requires WellFormed(schema) && InlinePath(schema, p) && (forall m <- p :: m in schema)
    requires |p| + fuel >= |schema|
    ensures StructSized(schema, p[|p| - 1], fuel)
    decreases fuel
  {
    var types := StructTypes(schema, p[|p| - 1]);
    forall r | r in types
      ensures Covered(schema, r, fuel)
    {
      forall n | n in Inline(r)
        ensures n in schema && fuel > 0 && StructSized(schema, n, fuel - 1)
      {
        ChainGrows(schema, p, r, n);
        DistinctFit(schema, p + [n]);
        StructIsSized(schema, p + [n], fuel - 1);
      }
    }
    AllSized(schema, types, fuel);
  }

  lemma VariantDeclared(schema: Schema, m: Msg, n: Msg)
    requires WellFormed(schema) && Variant(schema, m, n)
    ensures n in schema
  {
    var f :| f in schema[m] && f.Oneof? && MessageType(n) in f.variants;
    assert Resolved(schema, MessageType(n));
  }

  /** A chain without repetition is no longer than the schema. */
  lemma DistinctFit(schema: Schema, p: seq<Msg>)
    requires InlinePath(schema, p) && forall m <- p :: m in schema
    ensures |p| <= |schema|
  {
    forall i, j | 0 <= i < j < |p|
      ensures p[i] != p[j]
    {
      InlineIsAcyclic(schema, p, i, j);
    }
    DistinctCount(p, schema.Keys);
  }

  lemma {:induction false} DistinctCount(p: seq<Msg>, s: set<Msg>)
    requires (forall i, j :: 0 <= i < j < |p| ==> p[i] != p[j]) && forall m <- p :: m in s
    ensures |p| <= |s|
    decreases |p|
  {
    if p != [] {
      DistinctCount(p[1..], s - {p[0]});
    }
  }

  /** Every generated struct has a finite size, found within as many steps as the
      schema has messages. */
  lemma EveryStructHasASize(schema: Schema, m: Msg)
    requires WellFormed(schema) && m in schema
    ensures Size(schema, Named(m), |schema|).Some?
  {
    var p := [m];
    assert InlinePath(schema, p);
    DistinctFit(schema, p);
    StructIsSized(schema, p, |schema| - 1);
    assert Size(schema, Named(m), |schema|) == Total(schema, StructTypes(schema, m), |schema| - 1);
  }
}
