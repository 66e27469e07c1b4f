/**
 Decoding what AppendJSON wrote gives the message back, up to the documented
 normalisation, for every schema; and the decoder does not depend on key order.
 */
module JsonRoundTrip {

  import opened Wrappers
  import opened JsonModel
  import opened JsonAppend
  import opened JsonDecode
  import opened JsonNorm

  // ---- lookups ------------------------------------------------------------

  lemma {:induction false} FindFieldAt(fs: seq<Field>, n: nat)
    requires Distinct(Names(fs)) && n < |fs|
    ensures FindField(fs, fs[n].name) == Some(fs[n])
    decreases |fs|
  {
    if n > 0 {
      assert Names(fs)[0] != Names(fs)[n];
      DistinctTail(fs);
      FindFieldAt(fs[1..], n - 1);
    }
  }

  lemma {:induction false} FindVariantIn(vs: seq<Variant>, name: string)
    requires FindVariant(vs, name).Some?
    ensures FindVariant(vs, name).value in vs && FindVariant(vs, name).value.name == name
    decreases |vs|
  {
    if vs[0].name != name {
      FindVariantIn(vs[1..], name);
    }
  }

  lemma {:induction false} FindTagOf(vs: seq<Variant>, v: Variant)
    requires Distinct(VariantTags(vs)) && v in vs
    ensures FindTag(vs, v.tag) == Some(v)
    decreases |vs|
  {
    if vs[0] != v {
      var n :| 0 < n < |vs| && vs[n] == v;
      assert VariantTags(vs)[0] != VariantTags(vs)[n];
      assert VariantTags(vs[1..]) == VariantTags(vs)[1..];
      FindTagOf(vs[1..], v);
    }
  }

  lemma {:induction false} IndexOfAt(names: seq<string>, n: nat)
    requires Distinct(names) && n < |names|
    ensures IndexOf(names, names[n]) == Some(n)
    decreases |names|
  {
    if n > 0 {
      assert names[0] != names[n];
      IndexOfAt(names[1..], n - 1);
    }
  }

  // ---- scalars ------------------------------------------------------------

  /** Which values are written as null. */
  predicate WrittenNull(kind: Kind, v: Value) {
    (kind.KBytes? && v.VNil?) || (kind.KRaw? && (v.VNil? || v == VRaw(JNull))) || (kind.KMessage? && v.VNil?)
  }

  lemma ScalarStrict(cx: Codec, schema: Schema, kind: Kind, v: Value, inOneof: bool)
    requires cx.Ok() && schema.KindOk(kind) && !kind.KMessage? && Fits(kind, v) && EncScalar(cx, kind, v).Some?
    ensures
      var j := EncScalar(cx, kind, v).value;
      && (j.JNull? <==> WrittenNull(kind, v))
      && ((kind.KBytes? && v.VNil?) || DecVal(cx, schema, kind, true, inOneof, j) == Some(NormElem(schema, kind, v)))
  {
    match kind
    case KEnum(names) => IndexOfAt(names, v.i);
    case KIntString => assert cx.parse(inOneof, cx.digits(v.i)) == Some(v.i);
    case KBytes => if v.VBytes? { assert cx.decode(0, cx.encode(0, v.bytes)) == Some(v.bytes); }
    case KBytesEncoded(scheme) =>
      var b := if v.VNil? then [] else v.bytes;
      assert cx.decode(scheme, cx.encode(scheme, b)) == Some(b);
    case KString =>
    case KBool =>
    case KInt(_, _) =>
    case KEnumNumber =>
    case KRaw =>
  }

  lemma PlainRoundTrip(cx: Codec, schema: Schema, kind: Kind, emitZero: bool, v: Value, owner: string)
    requires cx.Ok() && schema.KindOk(kind) && !kind.KMessage? && Fits(kind, v)
    requires Present(Plain(kind, emitZero), v) && EncBody(cx, schema, owner, Plain(kind, emitZero), v).Some?
    ensures
      var j := EncBody(cx, schema, owner, Plain(kind, emitZero), v).value;
      DecField(cx, schema, Plain(kind, emitZero), j) == Some(NormPlain(kind, emitZero, v))
  {
    match kind
    case KEnum(names) => IndexOfAt(names, v.i);
    case KIntString => assert cx.parse(false, cx.digits(v.i)) == Some(v.i) && cx.digits(v.i) != "";
    case KBytes =>
      if v.VBytes? {
        assert cx.decode(0, cx.encode(0, v.bytes)) == Some(v.bytes);
      } else {
        assert cx.decode(0, cx.encode(0, [])) == Some([]) && cx.encode(0, []) == "";
      }
    case KBytesEncoded(scheme) =>
      var b := if v.VNil? then [] else v.bytes;
      assert cx.decode(scheme, cx.encode(scheme, b)) == Some(b) && (cx.encode(scheme, b) == "" <==> b == []);
    case KString =>
    case KBool =>
    case KInt(_, _) =>
    case KEnumNumber =>
    case KRaw =>
  }

  /** A member that is not written reads back as the zero it was. */
  lemma AbsentIsZero(schema: Schema, owner: string, s: Shape, v: Value)
    requires schema.ShapeOk(owner, s) && Stores(s, v) && !Present(s, v)
    ensures NormField(schema, owner, s, v) == ZeroField(s)
  {
  }

  // ---- messages -----------------------------------------------------------

  /** What a round trip is about. `zero` marks the message written in place of an
      unset one: nothing in it is set, and only ranks go down. */
  function Level(zero: bool): nat {
    if zero then 0 else 1
  }

  function RankOf(schema: Schema, zero: bool, name: string): nat {
    if zero && name in schema.rank then schema.rank[name] else 0
  }

  ghost predicate ZeroMsg(schema: Schema, name: string, v: Value) {
    name in schema.messages && v == VMsg(ZeroFields(schema.messages[name]))
  }

  lemma {:induction false} MessageRoundTrip(cx: Codec, schema: Schema, name: string, v: Value, zero: bool)
    requires cx.Ok() && schema.Ok() && v.VMsg? && EncMsg(cx, schema, name, v).Some? && (zero ==> ZeroMsg(schema, name, v))
    ensures
      var j := EncMsg(cx, schema, name, v).value;
      j.JObj? && DecMsg(cx, schema, name, j) == Some(NormMsg(schema, name, v))
    decreases Level(zero), RankOf(schema, zero, name), v, 2
  {
    var fs := schema.messages[name];
    assert fs[0..] == fs;
    NormFieldsKeys(schema, name, fs, v);
    ZeroIsBefore(schema, name, fs, v, ZeroFields(fs));
    MembersRoundTrip(cx, schema, name, fs, 0, v, {}, ZeroFields(fs), zero);
  }

  /** The first `i` fields decoded, the others still zero. */
  ghost predicate Decoded(schema: Schema, owner: string, fs: seq<Field>, v: Value, i: nat, acc: map<string, Value>)
    requires v.VMsg? && i <= |fs|
  {
    && acc.Keys == (set n <- Names(fs))
    && forall k {:trigger fs[k]} :: 0 <= k < |fs| ==> FieldDecoded(schema, owner, fs[k], v, k < i, acc)
  }

  ghost predicate FieldDecoded(schema: Schema, owner: string, f: Field, v: Value, done: bool, acc: map<string, Value>)
    requires v.VMsg?
  {
    f.name in acc
    && (if done then f.name in v.fields && acc[f.name] == NormField(schema, owner, f.shape, v.fields[f.name])
        else acc[f.name] == ZeroField(f.shape))
  }

  lemma ZeroIsBefore(schema: Schema, owner: string, fs: seq<Field>, v: Value, acc: map<string, Value>)
    requires v.VMsg? && Distinct(Names(fs)) && acc == ZeroFields(fs)
    ensures Decoded(schema, owner, fs, v, 0, acc)
  {
    NormFieldsKeys(schema, owner, fs, v);
    forall k {:trigger fs[k]} | 0 <= k < |fs|
      ensures FieldDecoded(schema, owner, fs[k], v, false, acc)
    {
      ZeroFieldsAt(fs, k);
    }
  }

  lemma DecodedAll(schema: Schema, owner: string, fs: seq<Field>, v: Value, acc: map<string, Value>)
    requires v.VMsg? && Distinct(Names(fs)) && Decoded(schema, owner, fs, v, |fs|, acc)
    ensures acc == NormFields(schema, owner, fs, v)
  {
    var norm := NormFields(schema, owner, fs, v);
    NormFieldsKeys(schema, owner, fs, v);
    forall n | n in acc
      ensures acc[n] == norm[n]
    {
      var k :| 0 <= k < |fs| && Names(fs)[k] == n;
      assert FieldDecoded(schema, owner, fs[k], v, true, acc);
      NormFieldsAt(schema, owner, fs, v, k);
    }
  }

  lemma DecodedNext(schema: Schema, owner: string, fs: seq<Field>, v: Value, i: nat, acc: map<string, Value>, x: Value)
    requires v.VMsg? && Distinct(Names(fs)) && i < |fs| && Decoded(schema, owner, fs, v, i, acc)
    requires fs[i].name in v.fields && x == NormField(schema, owner, fs[i].shape, v.fields[fs[i].name])
    ensures Decoded(schema, owner, fs, v, i + 1, acc[fs[i].name := x])
  {
    forall k {:trigger fs[k]} | 0 <= k < |fs|
      ensures FieldDecoded(schema, owner, fs[k], v, k < i + 1, acc[fs[i].name := x])
    {
      assert FieldDecoded(schema, owner, fs[k], v, k < i, acc);
      assert Names(fs)[k] == fs[k].name && Names(fs)[i] == fs[i].name;
    }
    assert fs[i].name in Names(fs);
  }

  lemma {:induction false} MembersRoundTrip(
    cx: Codec, schema: Schema, owner: string, fs: seq<Field>, i: nat, v: Value, seen: set<string>, acc: map<string, Value>, zero: bool)
    requires cx.Ok() && schema.Ok() && owner in schema.messages && fs == schema.messages[owner] && i <= |fs| && v.VMsg?
    requires (zero ==> ZeroMsg(schema, owner, v)) && EncFields(cx, schema, owner, fs[i..], v).Some?
    requires Decoded(schema, owner, fs, v, i, acc) && seen <= NamesBefore(fs, i)
    ensures
      DecMembers(cx, schema, fs, EncFields(cx, schema, owner, fs[i..], v).value, seen, acc) == Some(NormFields(schema, owner, fs, v))
    decreases Level(zero), RankOf(schema, zero, owner), v, 1, |fs| - i
  {
    if i == |fs| {
      DecodedAll(schema, owner, fs, v, acc);
    } else {
      var f := fs[i];
      EncFieldsAt(cx, schema, owner, fs, i, v);
      var x := v.fields[f.name];
      var y := NormField(schema, owner, f.shape, x);
      DecodedNext(schema, owner, fs, v, i, acc, y);
      SeenMore(fs, i, seen);
      if zero {
        ZeroFieldsAt(fs, i);
      }
      if Present(f.shape, x) {
        var j := EncBody(cx, schema, owner, f.shape, x).value;
        FieldRoundTrip(cx, schema, owner, f.shape, x, zero);
        MembersRoundTrip(cx, schema, owner, fs, i + 1, v, seen + {f.name}, acc[f.name := y], zero);
        OneMember(cx, schema, fs, i, j, y, EncFields(cx, schema, owner, fs[i + 1..], v).value, seen, acc);
      } else {
        AbsentIsZero(schema, owner, f.shape, x);
        assert FieldDecoded(schema, owner, fs[i], v, false, acc);
        assert acc[f.name := y] == acc;
        MembersRoundTrip(cx, schema, owner, fs, i + 1, v, seen, acc, zero);
      }
    }
  }

  /** A field's member, if it has one, and then the others'. */
  lemma EncFieldsAt(cx: Codec, schema: Schema, owner: string, fs: seq<Field>, i: nat, v: Value)
    requires schema.Ok() && owner in schema.messages && fs == schema.messages[owner] && i < |fs| && v.VMsg?
    requires EncFields(cx, schema, owner, fs[i..], v).Some?
    ensures fs[i].name in v.fields && schema.ShapeOk(owner, fs[i].shape)
    ensures EncFields(cx, schema, owner, fs[i + 1..], v).Some?
    ensures
      var s, x := fs[i].shape, v.fields[fs[i].name];
      var rest := EncFields(cx, schema, owner, fs[i + 1..], v).value;
      && Stores(s, x)
      && (!Present(s, x) ==> EncFields(cx, schema, owner, fs[i..], v).value == rest)
      && (Present(s, x) ==> EncBody(cx, schema, owner, s, x).Some?
                            && EncFields(cx, schema, owner, fs[i..], v).value == [Member(fs[i].name, EncBody(cx, schema, owner, s, x).value)] + rest)
  {
    assert fs[i] in fs && fs[i..][0] == fs[i] && fs[i..][1..] == fs[i + 1..];
  }

  lemma SeenMore(fs: seq<Field>, i: nat, seen: set<string>)
    requires i < |fs| && seen <= NamesBefore(fs, i)
    ensures seen <= NamesBefore(fs, i + 1) && seen + {fs[i].name} <= NamesBefore(fs, i + 1)
  {
  }

  ghost function NamesBefore(fs: seq<Field>, i: nat): set<string>
    requires i <= |fs|
  {
    set k | 0 <= k < i :: fs[k].name
  }

  /** The loop reads a field's member, then the rest. */
  lemma OneMember(cx: Codec, schema: Schema, fs: seq<Field>, i: nat, j: Json, y: Value, rest: seq<Member>, seen: set<string>, acc: map<string, Value>)
    requires Distinct(Names(fs)) && i < |fs| && seen <= NamesBefore(fs, i) && DecField(cx, schema, fs[i].shape, j) == Some(y)
    ensures DecMembers(cx, schema, fs, [Member(fs[i].name, j)] + rest, seen, acc)
         == DecMembers(cx, schema, fs, rest, seen + {fs[i].name}, acc[fs[i].name := y])
  {
    FindFieldAt(fs, i);
    var ms := [Member(fs[i].name, j)] + rest;
    assert ms[0] == Member(fs[i].name, j) && ms[1..] == rest;
    assert forall k :: 0 <= k < i ==> Names(fs)[k] != Names(fs)[i];
    assert fs[i].name !in seen;
  }

  lemma {:induction false} FieldRoundTrip(cx: Codec, schema: Schema, owner: string, s: Shape, v: Value, zero: bool)
    requires cx.Ok() && schema.Ok() && schema.ShapeOk(owner, s) && Stores(s, v) && Present(s, v)
    requires EncBody(cx, schema, owner, s, v).Some? && (zero ==> v == ZeroField(s) && owner in schema.rank)
    ensures DecField(cx, schema, s, EncBody(cx, schema, owner, s, v).value) == Some(NormField(schema, owner, s, v))
    decreases Level(zero), RankOf(schema, zero, owner), v, 4
  {
    match s
    case Oneof(disc, variants) => CaseRoundTrip(cx, schema, owner, disc, variants, v, zero);
    case Nullable(kind, _) =>
      if kind.KMessage? && v.ptr.VMsg? {
        MessageRoundTrip(cx, schema, kind.message, v.ptr, false);
      } else if v.ptr.VPtr? {
        ScalarStrict(cx, schema, kind, v.ptr.target, false);
      }
    case MapOf(kind, _) => if v.VMap? { MapRoundTrip(cx, schema, kind, v); }
    case Repeated(kind, _) => if v.VList? { ItemsRoundTrip(cx, schema, kind, v.items); }
    case Message(m, _) =>
      if v.VMsg? {
        MessageRoundTrip(cx, schema, m, v, false);
      } else {
        UnsetRoundTrip(cx, schema, owner, s, v, zero);
      }
    case Optional(kind) => OptionalRoundTrip(cx, schema, owner, kind, v);
    case Plain(kind, emitZero) => PlainRoundTrip(cx, schema, kind, emitZero, v, owner);
  }

  lemma OptionalRoundTrip(cx: Codec, schema: Schema, owner: string, kind: Kind, v: Value)
    requires cx.Ok() && schema.ShapeOk(owner, Optional(kind)) && Stores(Optional(kind), v) && Present(Optional(kind), v)
    requires EncBody(cx, schema, owner, Optional(kind), v).Some?
    ensures DecField(cx, schema, Optional(kind), EncBody(cx, schema, owner, Optional(kind), v).value)
         == Some(NormField(schema, owner, Optional(kind), v))
  {
    ScalarStrict(cx, schema, kind, v.target, false);
  }

  /** An unset message that is always sent comes back as its zero value. */
  lemma {:induction false} UnsetRoundTrip(cx: Codec, schema: Schema, owner: string, s: Shape, v: Value, zero: bool)
    requires cx.Ok() && schema.Ok() && schema.ShapeOk(owner, s) && s.Message? && v.VNil? && Present(s, v)
    requires EncBody(cx, schema, owner, s, v).Some? && (zero ==> owner in schema.rank)
    ensures DecField(cx, schema, s, EncBody(cx, schema, owner, s, v).value) == Some(NormField(schema, owner, s, v))
    decreases Level(zero), RankOf(schema, zero, owner), v, 3
  {
    var m := s.message;
    var fs := schema.messages[m];
    var made := VMsg(ZeroFields(fs));
    assert fs[0..] == fs;
    EncZeroIsNew(cx, schema, m, fs, 0);
    NormZeroIsNew(schema, m, fs, 0);
    assert EncMsg(cx, schema, m, made) == EncZero(cx, schema, m);
    MessageRoundTrip(cx, schema, m, made, true);
  }

  lemma {:induction false} ElemRoundTrip(cx: Codec, schema: Schema, kind: Kind, v: Value)
    requires cx.Ok() && schema.Ok() && schema.KindOk(kind) && EncVal(cx, schema, kind, v).Some?
    ensures DecElem(cx, schema, kind, EncVal(cx, schema, kind, v).value) == Some(NormElem(schema, kind, v))
    decreases 1, 0, v, 3
  {
    if !kind.KMessage? {
      ScalarStrict(cx, schema, kind, v, false);
    } else if v.VMsg? {
      MessageRoundTrip(cx, schema, kind.message, v, false);
    }
  }

  lemma {:induction false} ItemsRoundTrip(cx: Codec, schema: Schema, kind: Kind, items: seq<Value>)
    requires cx.Ok() && schema.Ok() && schema.KindOk(kind) && EncItems(cx, schema, kind, items).Some?
    ensures DecItems(cx, schema, kind, EncItems(cx, schema, kind, items).value) == Some(NormItems(schema, kind, items))
    decreases 1, 0, items
  {
    if items != [] {
      ElemRoundTrip(cx, schema, kind, items[0]);
      ItemsRoundTrip(cx, schema, kind, items[1..]);
      var js := EncItems(cx, schema, kind, items).value;
      assert js[1..] == EncItems(cx, schema, kind, items[1..]).value;
    }
  }

  lemma {:induction false} MapRoundTrip(cx: Codec, schema: Schema, kind: Kind, v: Value)
    requires cx.Ok() && schema.Ok() && schema.KindOk(kind) && v.VMap?
    requires EncEntries(cx, schema, kind, cx.order(v.entries.Keys), v).Some?
    ensures
      var r := DecEntries(cx, schema, kind, EncEntries(cx, schema, kind, cx.order(v.entries.Keys), v).value, map[]);
      && r == Some(NormEntries(schema, kind, v))
      && (|v.entries| == 0 ==> r == Some(map[]))
    decreases 1, 0, v, 3
  {
    var keys := cx.order(v.entries.Keys);
    assert (set k <- keys) == v.entries.Keys && Distinct(keys);
    EntriesRoundTrip(cx, schema, kind, keys, v, map[]);
    EntriesAll(schema, kind, keys, v, DecEntries(cx, schema, kind, EncEntries(cx, schema, kind, keys, v).value, map[]).value);
  }

  lemma EntriesAll(schema: Schema, kind: Kind, keys: seq<string>, v: Value, r: map<string, Value>)
    requires v.VMap? && (set k <- keys) == v.entries.Keys && EntriesRead(schema, kind, keys, v, map[], r)
    ensures r == NormEntries(schema, kind, v)
    ensures |v.entries| == 0 ==> r == map[]
  {
    forall k | k in r
      ensures k in v.entries && r[k] == NormElem(schema, kind, v.entries[k])
    {
      assert EntryRead(schema, kind, keys, v, map[], r, k);
    }
  }

  /** `acc`, with the entries of `keys` read back. */
  ghost predicate EntriesRead(schema: Schema, kind: Kind, keys: seq<string>, v: Value, acc: map<string, Value>, r: map<string, Value>)
    requires v.VMap?
  {
    && r.Keys == acc.Keys + (set k <- keys)
    && forall k <- r :: EntryRead(schema, kind, keys, v, acc, r, k)
  }

  ghost predicate EntryRead(schema: Schema, kind: Kind, keys: seq<string>, v: Value, acc: map<string, Value>, r: map<string, Value>, k: string)
    requires v.VMap? && k in r
  {
    if k in keys then k in v.entries && r[k] == NormElem(schema, kind, v.entries[k]) else k in acc && r[k] == acc[k]
  }

  lemma EntryFirst(schema: Schema, kind: Kind, keys: seq<string>, v: Value, acc: map<string, Value>, r: map<string, Value>)
    requires v.VMap? && keys != [] && Distinct(keys) && keys[0] in v.entries
    requires EntriesRead(schema, kind, keys[1..], v, acc[keys[0] := NormElem(schema, kind, v.entries[keys[0]])], r)
    ensures EntriesRead(schema, kind, keys, v, acc, r)
  {
    assert keys == [keys[0]] + keys[1..];
    forall k | k in r
      ensures EntryRead(schema, kind, keys, v, acc, r, k)
    {
      assert EntryRead(schema, kind, keys[1..], v, acc[keys[0] := NormElem(schema, kind, v.entries[keys[0]])], r, k);
    }
  }

  lemma DistinctRest(keys: seq<string>)
    requires keys != [] && Distinct(keys)
    ensures Distinct(keys[1..])
  {
    assert forall i :: 0 <= i < |keys[1..]| ==> keys[1..][i] == keys[i + 1];
  }

  lemma {:induction false} EntriesRoundTrip(cx: Codec, schema: Schema, kind: Kind, keys: seq<string>, v: Value, acc: map<string, Value>)
    requires cx.Ok() && schema.Ok() && schema.KindOk(kind) && v.VMap? && Distinct(keys)
    requires EncEntries(cx, schema, kind, keys, v).Some?
    ensures
      var r := DecEntries(cx, schema, kind, EncEntries(cx, schema, kind, keys, v).value, acc);
      r.Some? && EntriesRead(schema, kind, keys, v, acc, r.value)
    decreases 1, 0, v, 2, |keys|
  {
    if keys != [] {
      var acc' := acc[keys[0] := NormElem(schema, kind, v.entries[keys[0]])];
      ElemRoundTrip(cx, schema, kind, v.entries[keys[0]]);
      DistinctRest(keys);
      EntriesRoundTrip(cx, schema, kind, keys[1..], v, acc');
      var ms := EncEntries(cx, schema, kind, keys, v).value;
      assert ms[1..] == EncEntries(cx, schema, kind, keys[1..], v).value;
      EntryFirst(schema, kind, keys, v, acc, DecEntries(cx, schema, kind, ms[1..], acc').value);
    }
  }

  lemma {:induction false} CaseRoundTrip(cx: Codec, schema: Schema, owner: string, disc: string, vs: seq<Variant>, v: Value, zero: bool)
    requires cx.Ok() && schema.Ok() && schema.ShapeOk(owner, Oneof(disc, vs)) && Stores(Oneof(disc, vs), v) && v.VCase?
    requires EncBody(cx, schema, owner, Oneof(disc, vs), v).Some? && !zero
    ensures DecField(cx, schema, Oneof(disc, vs), EncBody(cx, schema, owner, Oneof(disc, vs), v).value)
         == Some(NormField(schema, owner, Oneof(disc, vs), v))
    decreases 1, 0, v, 3
  {
    var variant := FindVariant(vs, v.name).value;
    FindVariantIn(vs, v.name);
    FindTagOf(vs, variant);
    NotTheTag(disc, vs, variant);
    if variant.kind.KMessage? && v.payload.VNil? {
      OnlyTag(cx, schema, disc, vs, variant);
    } else {
      var j := EncVal(cx, schema, variant.kind, v.payload).value;
      if !variant.kind.KMessage? {
        ScalarStrict(cx, schema, variant.kind, v.payload, true);
      } else {
        MessageRoundTrip(cx, schema, variant.kind.message, v.payload, false);
      }
      PayloadRead(cx, schema, variant, v.payload, j);
      TagThenPayload(cx, schema, disc, vs, variant, j);
    }
  }

  /** No variant is called what the tag is called. */
  lemma NotTheTag(disc: string, vs: seq<Variant>, variant: Variant)
    requires Distinct([disc] + VariantNames(vs)) && variant in vs
    ensures variant.name != disc
  {
    var n :| 0 <= n < |vs| && vs[n] == variant;
    assert ([disc] + VariantNames(vs))[n + 1] == variant.name && ([disc] + VariantNames(vs))[0] == disc;
  }

  /** A payload that was written is read as its normal form, a null one as the zero. */
  lemma PayloadRead(cx: Codec, schema: Schema, variant: Variant, payload: Value, j: Json)
    requires !(variant.kind.KMessage? && payload.VNil?) && EncVal(cx, schema, variant.kind, payload) == Some(j)
    requires
      if variant.kind.KMessage? then !j.JNull? && DecVal(cx, schema, variant.kind, true, true, j) == Some(NormElem(schema, variant.kind, payload))
      else
        && (j.JNull? <==> WrittenNull(variant.kind, payload))
        && ((variant.kind.KBytes? && payload.VNil?) || DecVal(cx, schema, variant.kind, true, true, j) == Some(NormElem(schema, variant.kind, payload)))
    ensures j.JNull? ==> ZeroOf(variant.kind) == NormPayload(schema, variant.kind, payload)
    ensures !j.JNull? ==> DecVal(cx, schema, variant.kind, true, true, j) == Some(NormPayload(schema, variant.kind, payload))
  {
  }

  lemma OnlyTag(cx: Codec, schema: Schema, disc: string, vs: seq<Variant>, variant: Variant)
    ensures DecCase(cx, schema, disc, vs, [Member(disc, JStr(variant.tag))], {}, "", map[]) == Some((variant.tag, map[]))
  {
    var ms := [Member(disc, JStr(variant.tag))];
    assert ms[1..] == [];
  }

  /** A null payload is no payload. */
  lemma TagThenPayload(cx: Codec, schema: Schema, disc: string, vs: seq<Variant>, variant: Variant, j: Json)
    requires FindVariant(vs, variant.name) == Some(variant) && variant.name != disc
    requires j.JNull? || DecVal(cx, schema, variant.kind, true, true, j).Some?
    ensures
      DecCase(cx, schema, disc, vs, [Member(disc, JStr(variant.tag)), Member(variant.name, j)], {}, "", map[])
      == Some((variant.tag, if j.JNull? then map[] else map[variant.name := DecVal(cx, schema, variant.kind, true, true, j).value]))
  {
    var ms := [Member(disc, JStr(variant.tag)), Member(variant.name, j)];
    var rest := ms[1..];
    assert rest == [Member(variant.name, j)] && rest[1..] == [];
    assert DecPayload(cx, schema, variant.kind, rest[0]) == DecVal(cx, schema, variant.kind, true, true, j);
    var payloads: map<string, Value> := map[];
    if !j.JNull? {
      payloads := payloads[variant.name := DecVal(cx, schema, variant.kind, true, true, j).value];
    }
    assert DecCase(cx, schema, disc, vs, ms, {}, "", map[]) == DecCase(cx, schema, disc, vs, rest, {} + {disc}, variant.tag, map[]);
    assert DecCase(cx, schema, disc, vs, rest, {} + {disc}, variant.tag, map[])
        == DecCase(cx, schema, disc, vs, [], {} + {disc} + {variant.name}, variant.tag, payloads);
  }

  /** The central law: what AppendJSON writes, DecodeJSON reads into a fresh message
      as that message, normalised. */
  lemma DecodeOfAppend(cx: Codec, schema: Schema, name: string, v: Value)
    requires cx.Ok() && schema.Ok() && v.VMsg? && EncMsg(cx, schema, name, v).Some?
    ensures DecMsg(cx, schema, name, EncMsg(cx, schema, name, v).value) == Some(NormMsg(schema, name, v))
  {
    MessageRoundTrip(cx, schema, name, v, false);
  }
}
