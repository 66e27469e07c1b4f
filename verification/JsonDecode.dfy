/**
 The generated decoder on a fresh message. None means it gives up, and the caller
 falls back to the standard library.
 */
module JsonDecode {

  import opened Wrappers
  import opened JsonModel

  /** Kinds for which a null item or entry is a zero. */
  predicate NullIsZero(kind: Kind) {
    kind.KString? || kind.KBool? || kind.KInt? || kind.KBytes? || kind.KMessage?
  }

  /** A value where one is expected. `strict` refuses empty text for numbers and
      bytes; otherwise empty text leaves the zero. */
  function DecVal(cx: Codec, schema: Schema, kind: Kind, strict: bool, inOneof: bool, j: Json): Option<Value>
    decreases j, 1
  {
    match kind
    case KString => if j.JStr? then Some(VStr(j.s)) else None
    case KBool => if j.JBool? then Some(VBool(j.b)) else None
    case KInt(low, high) => if j.JInt? && low <= j.i <= high then Some(VInt(j.i)) else None
    case KIntString =>
      if !j.JStr? then None
      else if j.s == "" then (if strict then None else Some(VInt(0)))
      else
        (match cx.parse(strict && inOneof, j.s)
         case None => None
         case Some(i) => if Is64(i) then Some(VInt(i)) else None)
    case KEnum(names) =>
      if !j.JStr? then None
      else
        (match IndexOf(names, j.s)
         case None => None
         case Some(i) => Some(VInt(i)))
    case KEnumNumber => if j.JInt? && Is32(j.i) then Some(VInt(j.i)) else None
    case KBytes => if j.JStr? then AsBytes(cx.decode(0, j.s)) else None
    case KBytesEncoded(scheme) =>
      if !j.JStr? then None
      else if j.s == "" && !strict then Some(VNil)
      else AsBytes(cx.decode(scheme, j.s))
    case KRaw => Some(VRaw(j))
    case KMessage(m) => DecMsg(cx, schema, m, j)
  }

  function AsBytes(b: Option<Bytes>): Option<Value> {
    match b
    case None => None
    case Some(bytes) => Some(VBytes(bytes))
  }

  function AsPtr(v: Option<Value>): Option<Value> {
    match v
    case None => None
    case Some(x) => Some(VPtr(x))
  }

  function DecMsg(cx: Codec, schema: Schema, name: string, j: Json): Option<Value>
    decreases j, 0
  {
    if name !in schema.messages then None
    else
      var fs := schema.messages[name];
      if j.JNull? then Some(VMsg(ZeroFields(fs)))
      else if !j.JObj? then None
      else
        match DecMembers(cx, schema, fs, j.members, {}, ZeroFields(fs))
        case None => None
        case Some(fields) => Some(VMsg(fields))
  }

  /** The token loop: a seen bit per field, unknown keys skipped unless one differs
      from a field's only in case. */
  function DecMembers(cx: Codec, schema: Schema, fs: seq<Field>, ms: seq<Member>, seen: set<string>, acc: map<string, Value>)
    : Option<map<string, Value>>
    decreases ms
  {
    if ms == [] then Some(acc)
    else
      match FindField(fs, ms[0].key)
      case None =>
        if cx.folds(ms[0].key, set n <- Names(fs)) then None
        else DecMembers(cx, schema, fs, ms[1..], seen, acc)
      case Some(f) =>
        if f.name in seen then None
        else
          match DecMember(cx, schema, f.shape, ms[0])
          case None => None
          case Some(v) => DecMembers(cx, schema, fs, ms[1..], seen + {f.name}, acc[f.name := v])
  }

  function DecMember(cx: Codec, schema: Schema, s: Shape, m: Member): Option<Value>
    decreases m
  {
    DecField(cx, schema, s, m.val)
  }

  /** One field's value; where null leaves the field alone, it leaves the zero. */
  function DecField(cx: Codec, schema: Schema, s: Shape, j: Json): Option<Value>
    decreases j, 2
  {
    match s
    case Oneof(disc, variants) =>
      if j.JNull? then Some(VNil)
      else if !j.JObj? then None
      else
        (match DecCase(cx, schema, disc, variants, j.members, {}, "", map[])
         case None => None
         case Some((tag, payloads)) => Some(Chosen(variants, tag, payloads)))
    case Nullable(kind, _) =>
      if j.JNull? then Some(VNullable(VNil, true))
      else
        var v := DecVal(cx, schema, kind, true, false, j);
        if v.None? then None
        else Some(VNullable(if kind.KMessage? then v.value else VPtr(v.value), false))
    case MapOf(kind, _) =>
      if j.JNull? then Some(VNil)
      else if !j.JObj? then None
      else
        (match DecEntries(cx, schema, kind, j.members, map[])
         case None => None
         case Some(entries) => Some(VMap(entries)))
    case Repeated(kind, _) =>
      if j.JNull? then Some(VNil)
      else if !j.JArr? then None
      else
        (match DecItems(cx, schema, kind, j.items)
         case None => None
         case Some(items) => Some(VList(items)))
    case Message(m, _) => if j.JNull? then Some(VNil) else DecMsg(cx, schema, m, j)
    case Optional(kind) => if j.JNull? then Some(VNil) else AsPtr(DecVal(cx, schema, kind, true, false, j))
    case Plain(kind, _) =>
      if j.JNull? && !kind.KRaw? && !kind.KEnum? then Some(ZeroOf(kind)) else DecVal(cx, schema, kind, false, false, j)
  }

  /** An array item or a map entry. */
  function DecElem(cx: Codec, schema: Schema, kind: Kind, j: Json): Option<Value>
    decreases j, 2
  {
    if j.JNull? && NullIsZero(kind) then Some(ZeroOf(kind)) else DecVal(cx, schema, kind, true, false, j)
  }

  function DecItems(cx: Codec, schema: Schema, kind: Kind, js: seq<Json>): Option<seq<Value>>
    decreases js
  {
    if js == [] then Some([])
    else
      var v, rest := DecElem(cx, schema, kind, js[0]), DecItems(cx, schema, kind, js[1..]);
      if v.None? || rest.None? then None else Some([v.value] + rest.value)
  }

  /** A repeated map key overwrites. */
  function DecEntries(cx: Codec, schema: Schema, kind: Kind, ms: seq<Member>, acc: map<string, Value>): Option<map<string, Value>>
    decreases ms
  {
    if ms == [] then Some(acc)
    else
      match DecEntry(cx, schema, kind, ms[0])
      case None => None
      case Some(v) => DecEntries(cx, schema, kind, ms[1..], acc[ms[0].key := v])
  }

  function DecEntry(cx: Codec, schema: Schema, kind: Kind, m: Member): Option<Value>
    decreases m
  {
    DecElem(cx, schema, kind, m.val)
  }

  // ---- oneofs -------------------------------------------------------------

  /** Collects the tag and every payload, whatever order they come in. */
  function DecCase(cx: Codec, schema: Schema, disc: string, vs: seq<Variant>, ms: seq<Member>,
                   seen: set<string>, tag: string, payloads: map<string, Value>): Option<(string, map<string, Value>)>
    decreases ms
  {
    if ms == [] then Some((tag, payloads))
    else
      var key := ms[0].key;
      if key == disc then
        if key in seen || !(ms[0].val.JNull? || ms[0].val.JStr?) then None
        else DecCase(cx, schema, disc, vs, ms[1..], seen + {key}, if ms[0].val.JNull? then tag else ms[0].val.s, payloads)
      else
        match FindVariant(vs, key)
        case None =>
          if cx.folds(key, {disc} + set n <- VariantNames(vs)) then None
          else DecCase(cx, schema, disc, vs, ms[1..], seen, tag, payloads)
        case Some(v) =>
          if key in seen then None
          else if ms[0].val.JNull? then DecCase(cx, schema, disc, vs, ms[1..], seen + {key}, tag, payloads)
          else
            match DecPayload(cx, schema, v.kind, ms[0])
            case None => None
            case Some(x) => DecCase(cx, schema, disc, vs, ms[1..], seen + {key}, tag, payloads[key := x])
  }

  function DecPayload(cx: Codec, schema: Schema, kind: Kind, m: Member): Option<Value>
    decreases m
  {
    DecVal(cx, schema, kind, true, true, m.val)
  }

  /** The variant the tag names, with its payload or a zero; no variant, no change. */
  function Chosen(vs: seq<Variant>, tag: string, payloads: map<string, Value>): Value {
    match FindTag(vs, tag)
    case None => VNil
    case Some(v) => VCase(v.name, if v.name in payloads then payloads[v.name] else ZeroOf(v.kind))
  }

  // ---- the loop -----------------------------------------------------------

  /** The emitted method body: seen bits and assignments, one member after another. */
  method DecodeObject(cx: Codec, schema: Schema, name: string, ms: seq<Member>) returns (r: Option<map<string, Value>>)
    requires name in schema.messages
    ensures r == DecMembers(cx, schema, schema.messages[name], ms, {}, ZeroFields(schema.messages[name]))
  {
    var fs := schema.messages[name];
    var seen: set<string>, fields := {}, ZeroFields(fs);
    assert ms[0..] == ms;
    for i := 0 to |ms|
      invariant DecMembers(cx, schema, fs, ms, {}, ZeroFields(fs)) == DecMembers(cx, schema, fs, ms[i..], seen, fields)
    {
      assert ms[i..][0] == ms[i] && ms[i..][1..] == ms[i + 1..];
      var known := FindField(fs, ms[i].key);
      if known.None? {
        if cx.folds(ms[i].key, set n <- Names(fs)) {
          return None;
        }
      } else {
        var f := known.value;
        if f.name in seen {
          return None;
        }
        seen := seen + {f.name};
        var v := DecMember(cx, schema, f.shape, ms[i]);
        if v.None? {
          return None;
        }
        fields := fields[f.name := v.value];
      }
    }
    assert ms[|ms|..] == [];
    r := Some(fields);
  }
}
