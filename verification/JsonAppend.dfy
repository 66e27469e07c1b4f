/** AppendJSON, as the JSON tree it writes; None is a returned error. */
module JsonAppend {

  import opened Wrappers
  import opened JsonModel

  predicate NonZero(kind: Kind, v: Value)
    requires Fits(kind, v)
  {
    match kind
    case KString => v.s != ""
    case KBool => v.b
    case KInt(_, _) => v.i != 0
    case KIntString => v.i != 0
    case KEnum(_) => v.i != 0
    case KEnumNumber => v.i != 0
    case KBytes => v.VBytes? && v.bytes != []
    case KBytesEncoded(_) => v.VBytes? && v.bytes != []
    case KRaw => !v.VNil?
    case KMessage(_) => !v.VNil?
  }

  /** `fieldCondition`: whether the member is written. */
  predicate Present(s: Shape, v: Value)
    requires Stores(s, v)
  {
    match s
    case Oneof(_, _) => !v.VNil?
    case Nullable(_, alwaysSent) => alwaysSent || !v.ptr.VNil? || v.isNull
    case MapOf(_, emitZero) => emitZero || (v.VMap? && |v.entries| > 0)
    case Repeated(_, emitZero) => emitZero || (v.VList? && |v.items| > 0)
    case Message(_, alwaysSent) => alwaysSent || !v.VNil?
    case Optional(_) => !v.VNil?
    case Plain(kind, emitZero) => kind.KIntString? || kind.KEnumNumber? || emitZero || NonZero(kind, v)
  }

  /** Everything but messages. */
  function EncScalar(cx: Codec, kind: Kind, v: Value): Option<Json>
    requires Fits(kind, v) && !kind.KMessage?
  {
    match kind
    case KString => Some(JStr(v.s))
    case KBool => Some(JBool(v.b))
    case KInt(_, _) => Some(JInt(v.i))
    case KIntString => Some(JStr(cx.digits(v.i)))
    case KEnum(names) => if 0 <= v.i < |names| then Some(JStr(names[v.i])) else None
    case KEnumNumber => Some(JInt(v.i))
    case KBytes => Some(if v.VNil? then JNull else JStr(cx.encode(0, v.bytes)))
    case KBytesEncoded(scheme) => Some(JStr(cx.encode(scheme, if v.VNil? then [] else v.bytes)))
    case KRaw => if v.VNil? then Some(JNull) else if v.VRaw? then Some(v.doc) else None
  }

  function EncVal(cx: Codec, schema: Schema, kind: Kind, v: Value): Option<Json>
    decreases v, 3
  {
    if !Fits(kind, v) then None
    else if !kind.KMessage? then EncScalar(cx, kind, v)
    else if v.VNil? then Some(JNull)
    else EncMsg(cx, schema, kind.message, v)
  }

  function EncMsg(cx: Codec, schema: Schema, name: string, v: Value): Option<Json>
    requires v.VMsg?
    decreases v, 2
  {
    if name !in schema.messages then None
    else
      match EncFields(cx, schema, name, schema.messages[name], v)
      case None => None
      case Some(ms) => Some(JObj(ms))
  }

  function EncFields(cx: Codec, schema: Schema, owner: string, fs: seq<Field>, v: Value): Option<seq<Member>>
    requires v.VMsg?
    decreases v, 1, |fs|
  {
    if fs == [] then Some([])
    else if fs[0].name !in v.fields then None
    else
      var x, rest := v.fields[fs[0].name], EncFields(cx, schema, owner, fs[1..], v);
      if !Stores(fs[0].shape, x) || rest.None? then None
      else if !Present(fs[0].shape, x) then rest
      else
        match EncBody(cx, schema, owner, fs[0].shape, x)
        case None => None
        case Some(j) => Some([Member(fs[0].name, j)] + rest.value)
  }

  /** `fieldBody` */
  function EncBody(cx: Codec, schema: Schema, owner: string, s: Shape, v: Value): Option<Json>
    requires Stores(s, v)
    decreases v, 4
  {
    match s
    case Oneof(disc, variants) => if v.VNil? then Some(JNull) else EncCase(cx, schema, disc, FindVariant(variants, v.name).value, v)
    case Nullable(kind, _) =>
      if v.ptr.VNil? then Some(JNull)
      else if kind.KMessage? then EncVal(cx, schema, kind, v.ptr)
      else EncVal(cx, schema, kind, v.ptr.target)
    case MapOf(kind, _) =>
      if v.VNil? then Some(JObj([]))
      else
        (match EncEntries(cx, schema, kind, cx.order(v.entries.Keys), v)
         case None => None
         case Some(ms) => Some(JObj(ms)))
    case Repeated(kind, _) =>
      if v.VNil? then Some(JArr([]))
      else
        (match EncItems(cx, schema, kind, v.items)
         case None => None
         case Some(js) => Some(JArr(js)))
    case Message(m, alwaysSent) =>
      if !v.VNil? then EncMsg(cx, schema, m, v)
      else if alwaysSent && owner in schema.rank && m in schema.rank && schema.rank[m] < schema.rank[owner] then EncZero(cx, schema, m)
      else None
    case Optional(kind) => if v.VNil? then None else EncVal(cx, schema, kind, v.target)
    case Plain(kind, emitZero) => if kind.KBytes? && emitZero && v.VNil? then Some(JStr("")) else EncVal(cx, schema, kind, v)
  }

  /** A tag, then the payload unless it is a nil message. */
  function EncCase(cx: Codec, schema: Schema, disc: string, variant: Variant, v: Value): Option<Json>
    requires v.VCase?
    decreases v, 3
  {
    var tag := Member(disc, JStr(variant.tag));
    if variant.kind.KMessage? && v.payload.VNil? then Some(JObj([tag]))
    else
      match EncVal(cx, schema, variant.kind, v.payload)
      case None => None
      case Some(j) => Some(JObj([tag, Member(variant.name, j)]))
  }

  function EncItems(cx: Codec, schema: Schema, kind: Kind, items: seq<Value>): Option<seq<Json>>
    decreases items
  {
    if items == [] then Some([])
    else
      var j, rest := EncVal(cx, schema, kind, items[0]), EncItems(cx, schema, kind, items[1..]);
      if j.None? || rest.None? then None else Some([j.value] + rest.value)
  }

  function EncEntries(cx: Codec, schema: Schema, kind: Kind, keys: seq<string>, v: Value): Option<seq<Member>>
    requires v.VMap?
    decreases v, 3, |keys|
  {
    if keys == [] then Some([])
    else if keys[0] !in v.entries then None
    else
      var j, rest := EncVal(cx, schema, kind, v.entries[keys[0]]), EncEntries(cx, schema, kind, keys[1..], v);
      if j.None? || rest.None? then None else Some([Member(keys[0], j.value)] + rest.value)
  }

  /** An unset message that is always sent is written as its zero value. Nothing
      below it is set, so only its schema is followed. */
  function EncZero(cx: Codec, schema: Schema, name: string): Option<Json>
    requires name in schema.rank
    decreases schema.rank[name], 1, 0
  {
    if name !in schema.messages then None
    else
      match EncZeroFields(cx, schema, name, schema.messages[name])
      case None => None
      case Some(ms) => Some(JObj(ms))
  }

  function EncZeroFields(cx: Codec, schema: Schema, owner: string, fs: seq<Field>): Option<seq<Member>>
    requires owner in schema.rank
    decreases schema.rank[owner], 0, |fs|
  {
    if fs == [] then Some([])
    else
      var s, rest := fs[0].shape, EncZeroFields(cx, schema, owner, fs[1..]);
      if !Stores(s, ZeroField(s)) || rest.None? then None
      else if !Present(s, ZeroField(s)) then rest
      else
        var body :=
          if !s.Message? then EncZeroBody(cx, s)
          else if s.message in schema.rank && schema.rank[s.message] < schema.rank[owner] then EncZero(cx, schema, s.message)
          else None;
        if body.None? then None else Some([Member(fs[0].name, body.value)] + rest.value)
  }

  function EncZeroBody(cx: Codec, s: Shape): Option<Json>
    requires !s.Message? && Stores(s, ZeroField(s)) && Present(s, ZeroField(s))
  {
    match s
    case Nullable(_, _) => Some(JNull)
    case MapOf(_, _) => Some(JObj([]))
    case Repeated(_, _) => Some(JArr([]))
    case Plain(kind, emitZero) =>
      if kind.KBytes? && emitZero then Some(JStr("")) else if kind.KMessage? then Some(JNull) else EncScalar(cx, kind, ZeroOf(kind))
  }

  /** It is what `new(T)` is written as. */
  lemma {:induction false} EncZeroIsNew(cx: Codec, schema: Schema, name: string, all: seq<Field>, n: nat)
    requires schema.Ok() && name in schema.messages && all == schema.messages[name] && n <= |all|
    ensures EncZeroFields(cx, schema, name, all[n..]) == EncFields(cx, schema, name, all[n..], VMsg(ZeroFields(all)))
    decreases |all| - n
  {
    if n < |all| {
      assert all[n..][0] == all[n] && all[n..][1..] == all[n + 1..] && all[n] in all;
      ZeroFieldsAt(all, n);
      ZeroBodyIsNew(cx, schema, name, all[n].shape);
      EncZeroIsNew(cx, schema, name, all, n + 1);
    }
  }

  lemma ZeroBodyIsNew(cx: Codec, schema: Schema, owner: string, s: Shape)
    requires schema.ShapeOk(owner, s) && owner in schema.rank
    ensures Stores(s, ZeroField(s))
    ensures Present(s, ZeroField(s)) && !s.Message? ==> EncZeroBody(cx, s) == EncBody(cx, schema, owner, s, ZeroField(s))
  {
  }

  lemma {:induction false} ZeroFieldsAt(fs: seq<Field>, n: nat)
    requires Distinct(Names(fs)) && n < |fs|
    ensures fs[n].name in ZeroFields(fs) && ZeroFields(fs)[fs[n].name] == ZeroField(fs[n].shape)
    decreases |fs|
  {
    if n > 0 {
      assert Names(fs)[0] != Names(fs)[n];
      DistinctTail(fs);
      ZeroFieldsAt(fs[1..], n - 1);
    }
  }

  lemma DistinctTail(fs: seq<Field>)
    requires fs != [] && Distinct(Names(fs))
    ensures Distinct(Names(fs[1..])) && fs[0].name !in Names(fs[1..])
  {
    assert Names(fs[1..]) == Names(fs)[1..];
  }
}
