/**
 Exactly which messages a round trip leaves as they were, said by looking at the
 message alone, and what happens to the others.
 */
module JsonCanonical {

  import opened Wrappers
  import opened JsonModel
  import opened JsonAppend
  import opened JsonDecode
  import opened JsonNorm
  import opened JsonRoundTrip

  // ---- canonical messages -------------------------------------------------

  /** An item or a map entry: encoded bytes and raw JSON are not nil. */
  predicate CanonicalElem(schema: Schema, kind: Kind, v: Value)
    decreases v, 2
  {
    match kind
    case KBytesEncoded(_) => !v.VNil?
    case KRaw => !v.VNil?
    case KMessage(m) => v.VMsg? ==> Canonical(schema, m, v)
    case _ => true
  }

  /** A oneof's payload: raw JSON is nil rather than the document null. */
  predicate CanonicalPayload(schema: Schema, kind: Kind, v: Value)
    decreases v, 3
  {
    if kind.KRaw? then v != VRaw(JNull) else CanonicalElem(schema, kind, v)
  }

  /** A set pointer holds something; the document null is no document. */
  predicate CanonicalOptional(kind: Kind, v: Value) {
    match kind
    case KBytes => v != VPtr(VNil)
    case KBytesEncoded(_) => v != VPtr(VNil)
    case KRaw => v != VPtr(VNil) && v != VPtr(VRaw(JNull))
    case _ => true
  }

  /** Empty bytes are nil, unless zeros are written. */
  predicate CanonicalPlain(kind: Kind, emitZero: bool, v: Value) {
    match kind
    case KBytes => if emitZero then !v.VNil? else v != VBytes([])
    case KBytesEncoded(_) => v != VBytes([])
    case KRaw => emitZero ==> !v.VNil?
    case _ => true
  }

  predicate CanonicalField(schema: Schema, s: Shape, v: Value)
    decreases v, 4
  {
    match s
    case Oneof(_, variants) =>
      v.VCase? && FindVariant(variants, v.name).Some?
      ==> CanonicalPayload(schema, FindVariant(variants, v.name).value.kind, v.payload)
    case Nullable(kind, alwaysSent) =>
      v.VNullable? ==>
        if v.ptr.VNil? then alwaysSent ==> v.isNull
        else !v.isNull && (kind.KMessage? && v.ptr.VMsg? ==> Canonical(schema, kind.message, v.ptr))
    case MapOf(kind, emitZero) =>
      if v.VMap? && |v.entries| > 0 then forall k <- v.entries :: CanonicalElem(schema, kind, v.entries[k])
      else v == if emitZero then VMap(map[]) else VNil
    case Repeated(kind, emitZero) =>
      if v.VList? && |v.items| > 0 then forall x <- v.items :: CanonicalElem(schema, kind, x)
      else v == if emitZero then VList([]) else VNil
    case Message(m, alwaysSent) => if v.VMsg? then Canonical(schema, m, v) else !alwaysSent
    case Optional(kind) => CanonicalOptional(kind, v)
    case Plain(kind, emitZero) => CanonicalPlain(kind, emitZero, v)
  }

  function FieldsOf(schema: Schema, name: string): seq<Field> {
    if name in schema.messages then schema.messages[name] else []
  }

  /** The message has its fields and no others, each canonical. */
  predicate Canonical(schema: Schema, name: string, v: Value)
    requires v.VMsg?
    decreases v, 1
  {
    var fs := FieldsOf(schema, name);
    && v.fields.Keys == (set n <- Names(fs))
    && forall i :: 0 <= i < |fs| ==> fs[i].name in v.fields && CanonicalField(schema, fs[i].shape, v.fields[fs[i].name])
  }

  // ---- canonical is unchanged ---------------------------------------------

  lemma {:induction false} ElemUnchanged(schema: Schema, kind: Kind, v: Value)
    requires schema.Ok()
    ensures NormElem(schema, kind, v) == v <==> CanonicalElem(schema, kind, v)
    decreases v, 2
  {
    if kind.KMessage? && v.VMsg? {
      MessageUnchanged(schema, kind.message, v);
    }
  }

  lemma {:induction false} ItemsUnchanged(schema: Schema, kind: Kind, items: seq<Value>)
    requires schema.Ok()
    ensures NormItems(schema, kind, items) == items <==> forall x <- items :: CanonicalElem(schema, kind, x)
    decreases items
  {
    if items != [] {
      var norm := NormItems(schema, kind, items);
      ElemUnchanged(schema, kind, items[0]);
      ItemsUnchanged(schema, kind, items[1..]);
      assert norm[0] == NormElem(schema, kind, items[0]) && norm[1..] == NormItems(schema, kind, items[1..]);
      assert items == [items[0]] + items[1..];
      assert norm == items <==> norm[0] == items[0] && norm[1..] == items[1..];
    }
  }

  lemma {:induction false} EntriesUnchanged(schema: Schema, kind: Kind, v: Value)
    requires schema.Ok() && v.VMap?
    ensures NormEntries(schema, kind, v) == v.entries <==> forall k <- v.entries :: CanonicalElem(schema, kind, v.entries[k])
    decreases v, 3
  {
    var norm := NormEntries(schema, kind, v);
    assert norm.Keys == v.entries.Keys;
    forall k | k in v.entries
      ensures norm[k] == v.entries[k] <==> CanonicalElem(schema, kind, v.entries[k])
    {
      ElemUnchanged(schema, kind, v.entries[k]);
    }
    assert norm == v.entries <==> forall k <- v.entries :: norm[k] == v.entries[k];
  }

  lemma {:induction false} FieldUnchanged(schema: Schema, owner: string, s: Shape, v: Value)
    requires schema.Ok() && schema.ShapeOk(owner, s)
    ensures NormField(schema, owner, s, v) == v <==> CanonicalField(schema, s, v)
    decreases v, 4
  {
    match s
    case Oneof(_, variants) =>
      if v.VCase? && FindVariant(variants, v.name).Some? {
        ElemUnchanged(schema, FindVariant(variants, v.name).value.kind, v.payload);
      }
    case Nullable(kind, _) => if v.VNullable? && kind.KMessage? && v.ptr.VMsg? { MessageUnchanged(schema, kind.message, v.ptr); }
    case MapOf(kind, _) => if v.VMap? { EntriesUnchanged(schema, kind, v); }
    case Repeated(kind, _) => if v.VList? { ItemsUnchanged(schema, kind, v.items); }
    case Message(m, _) => if v.VMsg? { MessageUnchanged(schema, m, v); }
    case Optional(kind) => OptionalUnchanged(schema, owner, kind, v);
    case Plain(kind, emitZero) => PlainUnchanged(schema, owner, kind, emitZero, v);
  }

  lemma OptionalUnchanged(schema: Schema, owner: string, kind: Kind, v: Value)
    ensures NormField(schema, owner, Optional(kind), v) == v <==> CanonicalOptional(kind, v)
  {
  }

  lemma PlainUnchanged(schema: Schema, owner: string, kind: Kind, emitZero: bool, v: Value)
    ensures NormField(schema, owner, Plain(kind, emitZero), v) == v <==> CanonicalPlain(kind, emitZero, v)
  {
  }

  /** The normal form of a message is the message itself exactly when it is canonical. */
  lemma {:induction false} MessageUnchanged(schema: Schema, name: string, v: Value)
    requires schema.Ok() && v.VMsg?
    ensures NormMsg(schema, name, v) == v <==> Canonical(schema, name, v)
    decreases v, 1
  {
    var fs := FieldsOf(schema, name);
    var norm := NormFields(schema, name, fs, v);
    NormFieldsKeys(schema, name, fs, v);
    if v.fields.Keys == norm.Keys {
      forall i | 0 <= i < |fs|
        ensures fs[i].name in v.fields && fs[i].name in norm
        ensures norm[fs[i].name] == v.fields[fs[i].name] <==> CanonicalField(schema, fs[i].shape, v.fields[fs[i].name])
      {
        assert Names(fs)[i] == fs[i].name && fs[i] in fs;
        NormFieldsAt(schema, name, fs, v, i);
        FieldUnchanged(schema, name, fs[i].shape, v.fields[fs[i].name]);
      }
      AllFieldsEqual(fs, norm, v.fields);
    }
  }

  lemma AllFieldsEqual(fs: seq<Field>, a: map<string, Value>, b: map<string, Value>)
    requires a.Keys == b.Keys == set n <- Names(fs)
    ensures a == b <==> forall i :: 0 <= i < |fs| ==> fs[i].name in a && a[fs[i].name] == b[fs[i].name]
  {
    forall i | 0 <= i < |fs|
      ensures fs[i].name in a
    {
      assert Names(fs)[i] == fs[i].name;
    }
    if forall i :: 0 <= i < |fs| ==> fs[i].name in a && a[fs[i].name] == b[fs[i].name] {
      forall k | k in a
        ensures a[k] == b[k]
      {
        var i :| 0 <= i < |fs| && Names(fs)[i] == k;
        assert fs[i].name == k;
      }
    }
  }

  /** Reading back what was written returns the message exactly when it is canonical. */
  lemma RoundTripIsExact(cx: Codec, schema: Schema, name: string, v: Value)
    requires cx.Ok() && schema.Ok() && v.VMsg? && EncMsg(cx, schema, name, v).Some?
    ensures DecMsg(cx, schema, name, EncMsg(cx, schema, name, v).value) == Some(v) <==> Canonical(schema, name, v)
  {
    DecodeOfAppend(cx, schema, name, v);
    MessageUnchanged(schema, name, v);
  }

  // ---- one field, written and read ----------------------------------------

  /** What is in a field after its message has been written and read into a fresh
      one: its member decoded, or the zero that was there. */
  function ReadBack(cx: Codec, schema: Schema, owner: string, s: Shape, v: Value): Option<Value>
    requires Stores(s, v)
  {
    if !Present(s, v) then Some(ZeroField(s))
    else
      match EncBody(cx, schema, owner, s, v)
      case None => None
      case Some(j) => DecField(cx, schema, s, j)
  }

  lemma ReadBackIsNorm(cx: Codec, schema: Schema, owner: string, s: Shape, v: Value)
    requires cx.Ok() && schema.Ok() && schema.ShapeOk(owner, s) && Stores(s, v)
    requires Present(s, v) ==> EncBody(cx, schema, owner, s, v).Some?
    ensures ReadBack(cx, schema, owner, s, v) == Some(NormField(schema, owner, s, v))
  {
    if Present(s, v) {
      FieldRoundTrip(cx, schema, owner, s, v, false);
    } else {
      AbsentIsZero(schema, owner, s, v);
    }
  }

  datatype Tristate = Absent | Null | Set

  function StateOf(v: Value): Tristate
    requires v.VNullable?
  {
    if !v.ptr.VNil? then Set else if v.isNull then Null else Absent
  }

  /** A nullable field keeps which of its three states it is in, unless it is always
      sent and absent: then it is sent, and read back, as null. A set field loses a
      null flag that was left on. */
  lemma NullableReadBack(cx: Codec, schema: Schema, owner: string, kind: Kind, alwaysSent: bool, v: Value)
    requires cx.Ok() && schema.Ok() && schema.ShapeOk(owner, Nullable(kind, alwaysSent)) && Stores(Nullable(kind, alwaysSent), v)
    requires Present(Nullable(kind, alwaysSent), v) ==> EncBody(cx, schema, owner, Nullable(kind, alwaysSent), v).Some?
    ensures
      var r := ReadBack(cx, schema, owner, Nullable(kind, alwaysSent), v);
      && r.Some? && r.value.VNullable?
      && (StateOf(r.value) == StateOf(v) <==> !(alwaysSent && StateOf(v) == Absent))
      && (alwaysSent && StateOf(v) == Absent ==> StateOf(r.value) == Null)
      && (StateOf(v) == Set ==> !r.value.isNull)
  {
    ReadBackIsNorm(cx, schema, owner, Nullable(kind, alwaysSent), v);
  }

  // ---- the losses ---------------------------------------------------------

  lemma {:induction false} NormItemAt(schema: Schema, kind: Kind, items: seq<Value>, i: nat)
    requires i < |items|
    ensures |NormItems(schema, kind, items)| == |items| && NormItems(schema, kind, items)[i] == NormElem(schema, kind, items[i])
    decreases |items|
  {
    if |items| > 1 {
      NormItemAt(schema, kind, items[1..], if i > 0 then i - 1 else 0);
    } else {
      assert items[1..] == [];
    }
  }

  /** An empty raw JSON field anywhere in a list comes back as the document null. */
  lemma EmptyRawItemBecomesNull(cx: Codec, schema: Schema, owner: string, emitZero: bool, items: seq<Value>, i: nat)
    requires cx.Ok() && schema.Ok() && i < |items| && items[i] == VNil
    requires EncItems(cx, schema, KRaw, items).Some?
    ensures
      var r := ReadBack(cx, schema, owner, Repeated(KRaw, emitZero), VList(items));
      r.Some? && r.value.VList? && |r.value.items| == |items| && r.value.items[i] == VRaw(JNull)
  {
    ReadBackIsNorm(cx, schema, owner, Repeated(KRaw, emitZero), VList(items));
    NormItemAt(schema, KRaw, items, i);
  }

  /** The shortest such list. */
  lemma OneEmptyRawItem(cx: Codec, schema: Schema, owner: string, items: seq<Value>)
    requires cx.Ok() && schema.Ok() && items == [VNil]
    ensures ReadBack(cx, schema, owner, Repeated(KRaw, false), VList(items)) == Some(VList([VRaw(JNull)]))
  {
    assert items[1..] == [];
    assert EncVal(cx, schema, KRaw, items[0]) == Some(JNull) && EncItems(cx, schema, KRaw, items[1..]) == Some([]);
    EmptyRawItemBecomesNull(cx, schema, owner, false, items, 0);
    var r := ReadBack(cx, schema, owner, Repeated(KRaw, false), VList(items));
    assert r.value.items == [VRaw(JNull)];
  }

  /** The document null in an optional field comes back unset. */
  lemma NullDocumentBecomesUnset(cx: Codec, schema: Schema, owner: string)
    requires cx.Ok() && schema.Ok()
    ensures ReadBack(cx, schema, owner, Optional(KRaw), VPtr(VRaw(JNull))) == Some(VNil)
  {
    ReadBackIsNorm(cx, schema, owner, Optional(KRaw), VPtr(VRaw(JNull)));
  }

  /** The document null in a oneof comes back as no document in the same variant. */
  lemma NullPayloadBecomesEmpty(cx: Codec, schema: Schema, owner: string)
    requires cx.Ok() && schema.Ok()
    ensures
      var s := Oneof("type", [Variant("doc", "doc", KRaw)]);
      ReadBack(cx, schema, owner, s, VCase("doc", VRaw(JNull))) == Some(VCase("doc", VNil))
  {
    var variant := Variant("doc", "doc", KRaw);
    var s, v := Oneof("type", [variant]), VCase("doc", VRaw(JNull));
    assert FindVariant([variant], "doc") == Some(variant);
    assert EncVal(cx, schema, KRaw, VRaw(JNull)) == Some(JNull);
    assert EncCase(cx, schema, "type", variant, v).Some?;
    assert VariantNames([variant]) == ["doc"] && VariantTags([variant]) == ["doc"];
    ReadBackIsNorm(cx, schema, owner, s, v);
  }
}
