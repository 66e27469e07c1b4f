/**
 What the generated JSON code works on: schema fields by the way they are written
 and read, the values Go stores for them, and JSON trees.
 */
module JsonModel {

  import opened Wrappers

  // ---- JSON ---------------------------------------------------------------

  datatype Json =
    | JNull
    | JBool(b: bool)
    | JInt(i: int)
    | JStr(s: string)
    | JArr(items: seq<Json>)
    | JObj(members: seq<Member>)

  datatype Member = Member(key: string, val: Json)

  type Bytes = seq<bv8>

  /** Library routines the generated code calls, and the order it writes map keys in. */
  datatype Codec = Codec(
    digits: int -> string,
    parse: (bool, string) -> Option<int>,
    encode: (nat, Bytes) -> string,
    decode: (nat, string) -> Option<Bytes>,
    order: set<string> -> seq<string>,
    folds: (string, set<string>) -> bool)
  {
    /** Each pair inverts, on the strict and the lenient number parser alike. */
    ghost predicate Ok() {
      && (forall i, strict :: Is64(i) ==> digits(i) != "" && parse(strict, digits(i)) == Some(i))
      && (forall scheme, b :: decode(scheme, encode(scheme, b)) == Some(b) && (encode(scheme, b) == "" <==> b == []))
      && (forall keys :: (set k <- order(keys)) == keys && Distinct(order(keys)))
    }
  }

  predicate Distinct(keys: seq<string>) {
    forall i, j :: 0 <= i < j < |keys| ==> keys[i] != keys[j]
  }

  predicate Is64(i: int) {
    -0x8000_0000_0000_0000 <= i < 0x8000_0000_0000_0000
  }

  predicate Is32(i: int) {
    -0x8000_0000 <= i < 0x8000_0000
  }

  // ---- schema -------------------------------------------------------------

  datatype Kind =
    | KString
    | KBool
    | KInt(low: int, high: int)
    | KIntString
    | KEnum(names: seq<string>)
    | KEnumNumber
    | KBytes
    | KBytesEncoded(scheme: nat)
    | KRaw
    | KMessage(message: string)

  datatype Variant = Variant(name: string, tag: string, kind: Kind)

  /** The branches the generators take, in the order they take them. */
  datatype Shape =
    | Oneof(disc: string, variants: seq<Variant>)
    | Nullable(kind: Kind, alwaysSent: bool)
    | MapOf(kind: Kind, emitZero: bool)
    | Repeated(kind: Kind, emitZero: bool)
    | Message(message: string, alwaysSent: bool)
    | Optional(kind: Kind)
    | Plain(kind: Kind, emitZero: bool)

  datatype Field = Field(name: string, shape: Shape)

  /** `rank` orders messages so that one written in place of nil never contains itself. */
  datatype Schema = Schema(messages: map<string, seq<Field>>, rank: map<string, nat>) {
    predicate Ok() {
      forall m <- messages ::
        m in rank && Distinct(Names(messages[m])) && forall f <- messages[m] :: ShapeOk(m, f.shape)
    }

    predicate ShapeOk(owner: string, s: Shape) {
      match s
      case Oneof(disc, variants) =>
        && Distinct([disc] + VariantNames(variants)) && Distinct(VariantTags(variants))
        && forall v <- variants :: KindOk(v.kind)
      case Nullable(kind, _) => KindOk(kind) && (kind.KString? || kind.KBool? || kind.KInt? || kind.KEnum? || kind.KMessage?)
      case MapOf(kind, _) => KindOk(kind)
      case Repeated(kind, _) => KindOk(kind)
      case Message(m, alwaysSent) => m in messages && (alwaysSent ==> owner in rank && m in rank && rank[m] < rank[owner])
      case Optional(kind) => KindOk(kind) && !kind.KMessage?
      case Plain(kind, _) => KindOk(kind) && !kind.KMessage?
    }

    predicate KindOk(k: Kind) {
      match k
      case KEnum(names) => 0 < |names| <= 0x8000_0000 && Distinct(names)
      case KMessage(m) => m in messages
      case KInt(low, high) => low <= 0 <= high
      case _ => true
    }
  }

  function Names(fs: seq<Field>): (r: seq<string>)
    ensures |r| == |fs| && forall i :: 0 <= i < |fs| ==> r[i] == fs[i].name
  {
    seq(|fs|, i requires 0 <= i < |fs| => fs[i].name)
  }

  function VariantNames(vs: seq<Variant>): (r: seq<string>)
    ensures |r| == |vs| && forall i :: 0 <= i < |vs| ==> r[i] == vs[i].name
  {
    seq(|vs|, i requires 0 <= i < |vs| => vs[i].name)
  }

  function VariantTags(vs: seq<Variant>): (r: seq<string>)
    ensures |r| == |vs| && forall i :: 0 <= i < |vs| ==> r[i] == vs[i].tag
  {
    seq(|vs|, i requires 0 <= i < |vs| => vs[i].tag)
  }

  function FindField(fs: seq<Field>, name: string): Option<Field> {
    if fs == [] then None else if fs[0].name == name then Some(fs[0]) else FindField(fs[1..], name)
  }

  function FindVariant(vs: seq<Variant>, name: string): Option<Variant> {
    if vs == [] then None else if vs[0].name == name then Some(vs[0]) else FindVariant(vs[1..], name)
  }

  function FindTag(vs: seq<Variant>, tag: string): Option<Variant> {
    if vs == [] then None else if vs[0].tag == tag then Some(vs[0]) else FindTag(vs[1..], tag)
  }

  function IndexOf(names: seq<string>, name: string): Option<nat> {
    if names == [] then None
    else if names[0] == name then Some(0)
    else
      match IndexOf(names[1..], name)
      case None => None
      case Some(i) => Some(i + 1)
  }

  // ---- what Go stores -----------------------------------------------------

  datatype Value =
    | VNil                                     // a nil pointer, slice, map, interface or raw
    | VStr(s: string)
    | VBool(b: bool)
    | VInt(i: int)
    | VBytes(bytes: Bytes)
    | VRaw(doc: Json)
    | VBadRaw                                  // raw bytes that are not JSON
    | VPtr(target: Value)
    | VNullable(ptr: Value, isNull: bool)      // a pointer and its null flag
    | VList(items: seq<Value>)
    | VMap(entries: map<string, Value>)
    | VMsg(fields: map<string, Value>)
    | VCase(name: string, payload: Value)      // a set oneof

  function ZeroOf(kind: Kind): Value {
    match kind
    case KString => VStr("")
    case KBool => VBool(false)
    case KInt(_, _) => VInt(0)
    case KIntString => VInt(0)
    case KEnum(_) => VInt(0)
    case KEnumNumber => VInt(0)
    case KBytes => VNil
    case KBytesEncoded(_) => VNil
    case KRaw => VNil
    case KMessage(_) => VNil
  }

  function ZeroField(s: Shape): Value {
    match s
    case Nullable(_, _) => VNullable(VNil, false)
    case Plain(kind, _) => ZeroOf(kind)
    case Oneof(_, _) => VNil
    case MapOf(_, _) => VNil
    case Repeated(_, _) => VNil
    case Message(_, _) => VNil
    case Optional(_) => VNil
  }

  /** `new(T)` */
  function ZeroFields(fs: seq<Field>): map<string, Value> {
    if fs == [] then map[] else ZeroFields(fs[1..])[fs[0].name := ZeroField(fs[0].shape)]
  }

  /** A value the field's Go type can hold. */
  predicate Fits(kind: Kind, v: Value) {
    match kind
    case KString => v.VStr?
    case KBool => v.VBool?
    case KInt(low, high) => v.VInt? && low <= v.i <= high
    case KIntString => v.VInt? && Is64(v.i)
    case KEnum(_) => v.VInt? && Is32(v.i)
    case KEnumNumber => v.VInt? && Is32(v.i)
    case KBytes => v.VNil? || v.VBytes?
    case KBytesEncoded(_) => v.VNil? || v.VBytes?
    case KRaw => v.VNil? || v.VRaw? || v.VBadRaw?
    case KMessage(_) => v.VNil? || v.VMsg?
  }

  predicate Stores(s: Shape, v: Value) {
    match s
    case Oneof(_, variants) =>
      v.VNil?
      || (v.VCase? && FindVariant(variants, v.name).Some? && Fits(FindVariant(variants, v.name).value.kind, v.payload))
    case Nullable(kind, _) =>
      v.VNullable? && (v.ptr.VNil? || if kind.KMessage? then v.ptr.VMsg? else v.ptr.VPtr? && Fits(kind, v.ptr.target))
    case MapOf(_, _) => v.VNil? || v.VMap?
    case Repeated(_, _) => v.VNil? || v.VList?
    case Message(_, _) => v.VNil? || v.VMsg?
    case Optional(kind) => v.VNil? || (v.VPtr? && Fits(kind, v.target))
    case Plain(kind, _) => Fits(kind, v)
  }
}
