/**
 The documented loss: what a message becomes when it is written and read back.
 Nil and empty collections merge, an unset message that is always sent becomes its
 zero value, and a null stands for several kinds of nothing.
 */
module JsonNorm {

  import opened JsonModel
  import opened JsonAppend

  /** An item, a map entry, or a oneof payload other than raw JSON. */
  function NormElem(schema: Schema, kind: Kind, v: Value): Value
    decreases v, 2
  {
    if kind.KBytesEncoded? && v.VNil? then VBytes([])
    else if kind.KRaw? && v.VNil? then VRaw(JNull)
    else if kind.KMessage? && v.VMsg? then NormMsg(schema, kind.message, v)
    else v
  }

  function NormPayload(schema: Schema, kind: Kind, v: Value): Value
    decreases v, 3
  {
    if kind.KRaw? then (if v == VRaw(JNull) then VNil else v) else NormElem(schema, kind, v)
  }

  function NormItems(schema: Schema, kind: Kind, items: seq<Value>): seq<Value>
    decreases items
  {
    if items == [] then [] else [NormElem(schema, kind, items[0])] + NormItems(schema, kind, items[1..])
  }

  function NormEntries(schema: Schema, kind: Kind, v: Value): map<string, Value>
    requires v.VMap?
    decreases v, 3
  {
    map k | k in v.entries :: NormElem(schema, kind, v.entries[k])
  }

  function NormOptional(kind: Kind, v: Value): Value {
    if v == VPtr(VNil) && (kind.KBytes? || kind.KRaw?) then VNil
    else if v == VPtr(VRaw(JNull)) && kind.KRaw? then VNil
    else if v == VPtr(VNil) && kind.KBytesEncoded? then VPtr(VBytes([]))
    else v
  }

  function NormPlain(kind: Kind, emitZero: bool, v: Value): Value {
    if kind.KBytes? && emitZero && v.VNil? then VBytes([])
    else if kind.KBytes? && !emitZero && v == VBytes([]) then VNil
    else if kind.KBytesEncoded? && v == VBytes([]) then VNil
    else if kind.KRaw? && emitZero && v.VNil? then VRaw(JNull)
    else v
  }

  function NormField(schema: Schema, owner: string, s: Shape, v: Value): Value
    decreases v, 4
  {
    match s
    case Oneof(_, variants) =>
      if v.VCase? && FindVariant(variants, v.name).Some?
      then VCase(v.name, NormPayload(schema, FindVariant(variants, v.name).value.kind, v.payload)) else v
    case Nullable(kind, alwaysSent) =>
      if !v.VNullable? then v
      else if v.ptr.VNil? then VNullable(VNil, v.isNull || alwaysSent)
      else if kind.KMessage? && v.ptr.VMsg? then VNullable(NormMsg(schema, kind.message, v.ptr), false)
      else VNullable(v.ptr, false)
    case MapOf(kind, emitZero) =>
      if v.VMap? && |v.entries| > 0 then VMap(NormEntries(schema, kind, v))
      else if emitZero then VMap(map[]) else VNil
    case Repeated(kind, emitZero) =>
      if v.VList? && |v.items| > 0 then VList(NormItems(schema, kind, v.items))
      else if emitZero then VList([]) else VNil
    case Message(m, alwaysSent) =>
      if v.VMsg? then NormMsg(schema, m, v)
      else if alwaysSent && owner in schema.rank && m in schema.rank && schema.rank[m] < schema.rank[owner] then NormZero(schema, m)
      else v
    case Optional(kind) => NormOptional(kind, v)
    case Plain(kind, emitZero) => NormPlain(kind, emitZero, v)
  }

  function NormMsg(schema: Schema, name: string, v: Value): Value
    requires v.VMsg?
    decreases v, 1
  {
    VMsg(NormFields(schema, name, if name in schema.messages then schema.messages[name] else [], v))
  }

  function NormFields(schema: Schema, owner: string, fs: seq<Field>, v: Value): map<string, Value>
    requires v.VMsg?
    decreases v, 0, |fs|
  {
    if fs == [] then map[]
    else
      var x := if fs[0].name in v.fields then NormField(schema, owner, fs[0].shape, v.fields[fs[0].name]) else VNil;
      NormFields(schema, owner, fs[1..], v)[fs[0].name := x]
  }

  /** The zero message, read back. */
  function NormZero(schema: Schema, name: string): Value
    requires name in schema.rank
    decreases schema.rank[name], 1, 0
  {
    VMsg(NormZeroFields(schema, name, if name in schema.messages then schema.messages[name] else []))
  }

  function NormZeroFields(schema: Schema, owner: string, fs: seq<Field>): map<string, Value>
    requires owner in schema.rank
    decreases schema.rank[owner], 0, |fs|
  {
    if fs == [] then map[]
    else
      NormZeroFields(schema, owner, fs[1..])[fs[0].name := NormZeroField(schema, owner, fs[0].shape)]
  }

  function NormZeroField(schema: Schema, owner: string, s: Shape): Value
    requires owner in schema.rank
    decreases schema.rank[owner], 0, 0
  {
    match s
    case Nullable(_, alwaysSent) => VNullable(VNil, alwaysSent)
    case MapOf(_, emitZero) => if emitZero then VMap(map[]) else VNil
    case Repeated(_, emitZero) => if emitZero then VList([]) else VNil
    case Message(m, alwaysSent) =>
      if alwaysSent && m in schema.rank && schema.rank[m] < schema.rank[owner] then NormZero(schema, m) else VNil
    case Plain(kind, emitZero) => NormPlain(kind, emitZero, ZeroOf(kind))
    case Oneof(_, _) => VNil
    case Optional(_) => VNil
  }

  lemma ZeroFieldIsNew(schema: Schema, owner: string, s: Shape)
    requires owner in schema.rank
    ensures NormZeroField(schema, owner, s) == NormField(schema, owner, s, ZeroField(s))
  {
  }

  /** It is what `new(T)` becomes. */
  lemma {:induction false} NormZeroIsNew(schema: Schema, name: string, all: seq<Field>, n: nat)
    requires schema.Ok() && name in schema.messages && all == schema.messages[name] && n <= |all|
    ensures NormZeroFields(schema, name, all[n..]) == NormFields(schema, name, all[n..], VMsg(ZeroFields(all)))
    decreases |all| - n
  {
    if n < |all| {
      assert all[n..][0] == all[n] && all[n..][1..] == all[n + 1..];
      ZeroFieldsAt(all, n);
      ZeroFieldIsNew(schema, name, all[n].shape);
      NormZeroIsNew(schema, name, all, n + 1);
    }
  }

  lemma {:induction false} NormFieldsAt(schema: Schema, owner: string, fs: seq<Field>, v: Value, n: nat)
    requires v.VMsg? && Distinct(Names(fs)) && n < |fs| && fs[n].name in v.fields
    ensures fs[n].name in NormFields(schema, owner, fs, v)
    ensures NormFields(schema, owner, fs, v)[fs[n].name] == NormField(schema, owner, fs[n].shape, v.fields[fs[n].name])
    decreases |fs|
  {
    if n > 0 {
      assert Names(fs)[0] != Names(fs)[n];
      DistinctTail(fs);
      NormFieldsAt(schema, owner, fs[1..], v, n - 1);
    }
  }

  lemma {:induction false} NormFieldsKeys(schema: Schema, owner: string, fs: seq<Field>, v: Value)
    requires v.VMsg?
    ensures NormFields(schema, owner, fs, v).Keys == (set n <- Names(fs)) == ZeroFields(fs).Keys
    decreases |fs|
  {
    if fs != [] {
      assert Names(fs) == [fs[0].name] + Names(fs[1..]);
      NormFieldsKeys(schema, owner, fs[1..], v);
    }
  }
}
