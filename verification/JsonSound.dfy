/**
 Which values a generated struct can hold, which of them AppendJSON can write, and that
 the decoder returns nothing else, whatever the document.
 */
module JsonSound {

  import opened Wrappers
  import opened JsonModel
  import opened JsonAppend
  import opened JsonDecode
  import opened JsonRoundTrip
  import opened JsonReader

  // ---- what a struct holds ------------------------------------------------

  /** A value of the kind's Go type, all the way down. With `valid`, enum values are
      among the schema's and raw JSON is JSON. */
  ghost predicate HoldsVal(schema: Schema, kind: Kind, v: Value, valid: bool)
    decreases v, 1
  {
    && Fits(kind, v)
    && (valid && kind.KEnum? ==> 0 <= v.i < |kind.names|)
    && (valid ==> !v.VBadRaw?)
    && (kind.KMessage? && v.VMsg? ==> HoldsMsg(schema, kind.message, v, valid))
  }

  ghost predicate HoldsField(schema: Schema, s: Shape, v: Value, valid: bool)
    decreases v, 2
  {
    && Stores(s, v)
    && match s
       case Oneof(_, vs) => v.VCase? ==> HoldsVal(schema, FindVariant(vs, v.name).value.kind, v.payload, valid)
       case Nullable(kind, _) =>
         if v.ptr.VNil? then true
         else if kind.KMessage? then HoldsVal(schema, kind, v.ptr, valid)
         else HoldsVal(schema, kind, v.ptr.target, valid)
       case MapOf(kind, _) => v.VMap? ==> forall k <- v.entries :: HoldsVal(schema, kind, v.entries[k], valid)
       case Repeated(kind, _) => v.VList? ==> forall x <- v.items :: HoldsVal(schema, kind, x, valid)
       case Message(m, _) => v.VMsg? ==> HoldsMsg(schema, m, v, valid)
       case Optional(kind) => v.VPtr? ==> HoldsVal(schema, kind, v.target, valid)
       case Plain(kind, _) => HoldsVal(schema, kind, v, valid)
  }

  /** Exactly the schema's fields, each holding what its Go type can hold. */
  ghost predicate HoldsMsg(schema: Schema, name: string, v: Value, valid: bool)
    decreases v, 0
  {
    && v.VMsg? && name in schema.messages && v.fields.Keys == FieldKeys(schema.messages[name])
    && forall f <- schema.messages[name] :: f.name in v.fields && HoldsField(schema, f.shape, v.fields[f.name], valid)
  }

  // ---- the decoder returns nothing else -----------------------------------

  lemma ScalarSound(cx: Codec, schema: Schema, kind: Kind, strict: bool, inOneof: bool, j: Json)
    requires schema.KindOk(kind) && !kind.KMessage? && DecVal(cx, schema, kind, strict, inOneof, j).Some?
    ensures HoldsVal(schema, kind, DecVal(cx, schema, kind, strict, inOneof, j).value, true)
  {
    var v := DecVal(cx, schema, kind, strict, inOneof, j).value;
    if OneDocument(kind) {
      ScalarExactly(cx, schema, kind, strict, inOneof, j, v);
    }
  }

  lemma {:induction false} ValSound(cx: Codec, schema: Schema, kind: Kind, strict: bool, inOneof: bool, j: Json)
    requires schema.Ok() && schema.KindOk(kind) && DecVal(cx, schema, kind, strict, inOneof, j).Some?
    ensures HoldsVal(schema, kind, DecVal(cx, schema, kind, strict, inOneof, j).value, true)
    decreases j, 1
  {
    if kind.KMessage? {
      MessageSound(cx, schema, kind.message, j);
    } else {
      ScalarSound(cx, schema, kind, strict, inOneof, j);
    }
  }

  lemma ZeroHeld(schema: Schema, kind: Kind)
    requires schema.KindOk(kind)
    ensures HoldsVal(schema, kind, ZeroOf(kind), true)
  {
  }

  lemma {:induction false} ElemSound(cx: Codec, schema: Schema, kind: Kind, j: Json)
    requires schema.Ok() && schema.KindOk(kind) && DecElem(cx, schema, kind, j).Some?
    ensures HoldsVal(schema, kind, DecElem(cx, schema, kind, j).value, true)
    decreases j, 2
  {
    if j.JNull? && NullIsZero(kind) {
      ZeroHeld(schema, kind);
    } else {
      ValSound(cx, schema, kind, true, false, j);
    }
  }

  lemma {:induction false} ItemsSound(cx: Codec, schema: Schema, kind: Kind, js: seq<Json>)
    requires schema.Ok() && schema.KindOk(kind) && DecItems(cx, schema, kind, js).Some?
    ensures forall x <- DecItems(cx, schema, kind, js).value :: HoldsVal(schema, kind, x, true)
    decreases js
  {
    ItemsExactly(cx, schema, kind, js);
    var items := DecItems(cx, schema, kind, js).value;
    forall i | 0 <= i < |items|
      ensures HoldsVal(schema, kind, items[i], true)
    {
      assert js[i] in js;
      ElemSound(cx, schema, kind, js[i]);
    }
  }

  lemma {:induction false} EntriesSound(cx: Codec, schema: Schema, kind: Kind, ms: seq<Member>, acc: map<string, Value>)
    requires schema.Ok() && schema.KindOk(kind) && DecEntries(cx, schema, kind, ms, acc).Some?
    requires forall k <- acc :: HoldsVal(schema, kind, acc[k], true)
    ensures
      var r := DecEntries(cx, schema, kind, ms, acc).value;
      forall k <- r :: HoldsVal(schema, kind, r[k], true)
    decreases ms
  {
    if ms != [] {
      var v := DecEntry(cx, schema, kind, ms[0]).value;
      ElemSound(cx, schema, kind, ms[0].val);
      EntriesSound(cx, schema, kind, ms[1..], acc[ms[0].key := v]);
    }
  }

  ghost predicate HoldsPayload(schema: Schema, vs: seq<Variant>, key: string, v: Value) {
    FindVariant(vs, key).Some? && HoldsVal(schema, FindVariant(vs, key).value.kind, v, true)
  }

  lemma {:induction false} CaseSound(
    cx: Codec, schema: Schema, disc: string, vs: seq<Variant>, ms: seq<Member>, seen: set<string>, tag: string, payloads: map<string, Value>)
    requires schema.Ok() && (forall v <- vs :: schema.KindOk(v.kind))
    requires DecCase(cx, schema, disc, vs, ms, seen, tag, payloads).Some? && forall k <- payloads :: HoldsPayload(schema, vs, k, payloads[k])
    ensures
      var r := DecCase(cx, schema, disc, vs, ms, seen, tag, payloads).value.1;
      forall k <- r :: HoldsPayload(schema, vs, k, r[k])
    decreases ms
  {
    if ms != [] {
      var rest := ms[1..];
      var key := ms[0].key;
      if key == disc {
        CaseSound(cx, schema, disc, vs, rest, seen + {key}, if ms[0].val.JNull? then tag else ms[0].val.s, payloads);
      } else if FindVariant(vs, key).None? {
        CaseSound(cx, schema, disc, vs, rest, seen, tag, payloads);
      } else if ms[0].val.JNull? {
        CaseSound(cx, schema, disc, vs, rest, seen + {key}, tag, payloads);
      } else {
        var kind := FindVariant(vs, key).value.kind;
        FindVariantIn(vs, key);
        ValSound(cx, schema, kind, true, true, ms[0].val);
        CaseSound(cx, schema, disc, vs, rest, seen + {key}, tag, payloads[key := DecPayload(cx, schema, kind, ms[0]).value]);
      }
    }
  }

  /** Distinct names: a variant is found by its own. */
  lemma {:induction false} FindItself(vs: seq<Variant>, v: Variant)
    requires Distinct(VariantNames(vs)) && v in vs
    ensures FindVariant(vs, v.name) == Some(v)
    decreases |vs|
  {
    if vs[0] != v {
      var n :| 0 < n < |vs| && vs[n] == v;
      assert VariantNames(vs)[0] != VariantNames(vs)[n];
      assert VariantNames(vs[1..]) == VariantNames(vs)[1..];
      FindItself(vs[1..], v);
    }
  }

  lemma {:induction false} FieldSound(cx: Codec, schema: Schema, owner: string, s: Shape, j: Json)
    requires schema.Ok() && schema.ShapeOk(owner, s) && DecField(cx, schema, s, j).Some?
    ensures HoldsField(schema, s, DecField(cx, schema, s, j).value, true)
    decreases j, 3
  {
    match s
    case Oneof(disc, vs) => if !j.JNull? { OneofSound(cx, schema, owner, disc, vs, j); }
    case Nullable(kind, _) => if !j.JNull? { ValSound(cx, schema, kind, true, false, j); }
    case MapOf(kind, _) => if !j.JNull? { EntriesSound(cx, schema, kind, j.members, map[]); }
    case Repeated(kind, _) => if !j.JNull? { ItemsSound(cx, schema, kind, j.items); }
    case Message(m, _) => if !j.JNull? { MessageSound(cx, schema, m, j); }
    case Optional(kind) => if !j.JNull? { ValSound(cx, schema, kind, true, false, j); }
    case Plain(kind, _) =>
      if j.JNull? && !kind.KRaw? && !kind.KEnum? {
        ZeroHeld(schema, kind);
      } else {
        ValSound(cx, schema, kind, false, false, j);
      }
  }

  lemma {:induction false} OneofSound(cx: Codec, schema: Schema, owner: string, disc: string, vs: seq<Variant>, j: Json)
    requires schema.Ok() && schema.ShapeOk(owner, Oneof(disc, vs)) && j.JObj? && DecField(cx, schema, Oneof(disc, vs), j).Some?
    ensures HoldsField(schema, Oneof(disc, vs), DecField(cx, schema, Oneof(disc, vs), j).value, true)
    decreases j, 2
  {
    var (tag, payloads) := DecCase(cx, schema, disc, vs, j.members, {}, "", map[]).value;
    CaseSound(cx, schema, disc, vs, j.members, {}, "", map[]);
    FindTagIn(vs, tag);
    if FindTag(vs, tag).Some? {
      var v := FindTag(vs, tag).value;
      assert ([disc] + VariantNames(vs))[1..] == VariantNames(vs);
      FindItself(vs, v);
      ZeroHeld(schema, v.kind);
    }
  }

  ghost predicate HoldsSoFar(schema: Schema, fs: seq<Field>, r: map<string, Value>) {
    r.Keys == FieldKeys(fs) && forall f <- fs :: f.name in r && HoldsField(schema, f.shape, r[f.name], true)
  }

  lemma {:induction false} MembersSound(
    cx: Codec, schema: Schema, owner: string, ms: seq<Member>, seen: set<string>, acc: map<string, Value>)
    requires schema.Ok() && owner in schema.messages && HoldsSoFar(schema, schema.messages[owner], acc)
    requires DecMembers(cx, schema, schema.messages[owner], ms, seen, acc).Some?
    ensures HoldsSoFar(schema, schema.messages[owner], DecMembers(cx, schema, schema.messages[owner], ms, seen, acc).value)
    decreases ms
  {
    if ms != [] {
      var fs := schema.messages[owner];
      var known := FindField(fs, ms[0].key);
      FindFieldExactly(fs, ms[0].key);
      if known.None? {
        MembersSound(cx, schema, owner, ms[1..], seen, acc);
      } else {
        var f := known.value;
        var v := DecMember(cx, schema, f.shape, ms[0]).value;
        FieldSound(cx, schema, owner, f.shape, ms[0].val);
        OneFieldMore(schema, fs, f, v, acc);
        MembersSound(cx, schema, owner, ms[1..], seen + {f.name}, acc[f.name := v]);
      }
    }
  }

  lemma OneFieldMore(schema: Schema, fs: seq<Field>, f: Field, v: Value, acc: map<string, Value>)
    requires Distinct(Names(fs)) && f in fs && HoldsSoFar(schema, fs, acc) && HoldsField(schema, f.shape, v, true)
    ensures HoldsSoFar(schema, fs, acc[f.name := v])
  {
    var n :| 0 <= n < |fs| && fs[n] == f;
    forall g | g in fs
      ensures HoldsField(schema, g.shape, acc[f.name := v][g.name], true)
    {
      var i :| 0 <= i < |fs| && fs[i] == g;
      assert Names(fs)[i] == g.name && Names(fs)[n] == f.name;
    }
    assert Names(fs)[n] in FieldKeys(fs);
  }

  lemma FreshIsHeld(schema: Schema, owner: string)
    requires schema.Ok() && owner in schema.messages
    ensures HoldsSoFar(schema, schema.messages[owner], ZeroFields(schema.messages[owner]))
  {
    var fs := schema.messages[owner];
    ZeroKeys(fs);
    forall f | f in fs
      ensures f.name in ZeroFields(fs) && HoldsField(schema, f.shape, ZeroFields(fs)[f.name], true)
    {
      var i :| 0 <= i < |fs| && fs[i] == f;
      ZeroFieldsAt(fs, i);
      if f.shape.Plain? {
        ZeroHeld(schema, f.shape.kind);
      }
    }
  }

  lemma {:induction false} ZeroKeys(fs: seq<Field>)
    ensures ZeroFields(fs).Keys == FieldKeys(fs)
    decreases |fs|
  {
    if fs != [] {
      ZeroKeys(fs[1..]);
      assert Names(fs) == [fs[0].name] + Names(fs[1..]);
    }
  }

  /** Whatever document is accepted, the message has exactly the schema's fields, each
      with a value its Go type can hold, valid enums and raw JSON, all the way down. */
  lemma {:induction false} MessageSound(cx: Codec, schema: Schema, name: string, j: Json)
    requires schema.Ok() && DecMsg(cx, schema, name, j).Some?
    ensures HoldsMsg(schema, name, DecMsg(cx, schema, name, j).value, true)
    decreases j, 0
  {
    FreshIsHeld(schema, name);
    if !j.JNull? {
      MembersSound(cx, schema, name, j.members, {}, ZeroFields(schema.messages[name]));
    }
  }
}
