/**
 The decoder on any document, not only on what AppendJSON wrote: which documents it
 accepts, what it takes from them, and that what it returns is something the Go type
 can hold.
 */
module JsonReader {

  import opened Wrappers
  import opened JsonModel
  import opened JsonAppend
  import opened JsonDecode
  import opened JsonRoundTrip
  import opened JsonOrder

  // ---- scalars ------------------------------------------------------------

  /** Kinds whose values have one document each. */
  predicate OneDocument(kind: Kind) {
    kind.KString? || kind.KBool? || kind.KInt? || kind.KEnum? || kind.KEnumNumber?
  }

  lemma {:induction false} IndexOfIs(names: seq<string>, s: string)
    ensures IndexOf(names, s).Some? ==> IndexOf(names, s).value < |names| && names[IndexOf(names, s).value] == s
    decreases |names|
  {
    if names != [] && names[0] != s {
      IndexOfIs(names[1..], s);
    }
  }

  /** The documents read as `v` are those `v` is written as: a number out of range, a
      name that is not the enum's, a value of another JSON type are all refused. */
  lemma ScalarExactly(cx: Codec, schema: Schema, kind: Kind, strict: bool, inOneof: bool, j: Json, v: Value)
    requires OneDocument(kind) && schema.KindOk(kind)
    ensures DecVal(cx, schema, kind, strict, inOneof, j) == Some(v) <==> Fits(kind, v) && EncScalar(cx, kind, v) == Some(j)
  {
    if kind.KEnum? {
      if j.JStr? {
        IndexOfIs(kind.names, j.s);
      }
      if Fits(kind, v) && EncScalar(cx, kind, v) == Some(j) {
        IndexOfAt(kind.names, v.i);
      }
    }
  }

  /** Numbers as text: a string of a 64-bit number; empty text only where it is let be. */
  lemma NumberTextExactly(cx: Codec, schema: Schema, strict: bool, inOneof: bool, j: Json, v: Value)
    ensures DecVal(cx, schema, KIntString, strict, inOneof, j) == Some(v)
       <==> j.JStr? && v.VInt? && Is64(v.i) && (if j.s == "" then !strict && v.i == 0 else cx.parse(strict && inOneof, j.s) == Some(v.i))
  {
  }

  /** Encoded bytes: a string its library routine decodes. */
  lemma BytesTextExactly(cx: Codec, schema: Schema, kind: Kind, strict: bool, inOneof: bool, j: Json, v: Value)
    requires kind.KBytes? || kind.KBytesEncoded?
    ensures DecVal(cx, schema, kind, strict, inOneof, j) == Some(v)
       <==> j.JStr? && if kind.KBytesEncoded? && j.s == "" && !strict then v == VNil
                       else v.VBytes? && cx.decode(if kind.KBytes? then 0 else kind.scheme, j.s) == Some(v.bytes)
  {
  }

  /** What null stands for: nothing, as in a fresh message, but for a nullable field,
      which records it, a raw one, which keeps it, and an enum, which refuses it. */
  lemma NullExactly(cx: Codec, schema: Schema, s: Shape)
    ensures DecField(cx, schema, s, JNull)
         == if s.Nullable? then Some(VNullable(VNil, true))
            else if s.Plain? && s.kind.KRaw? then Some(VRaw(JNull))
            else if s.Plain? && s.kind.KEnum? then None
            else Some(ZeroField(s))
  {
  }

  /** Null as an item or entry: a zero, or the document null, or refused. */
  lemma NullItemExactly(cx: Codec, schema: Schema, kind: Kind)
    ensures DecElem(cx, schema, kind, JNull)
         == match kind
            case KRaw => Some(VRaw(JNull))
            case KIntString => None
            case KEnum(_) => None
            case KEnumNumber => None
            case KBytesEncoded(_) => None
            case _ => Some(ZeroOf(kind))
  {
  }

  // ---- arrays and map objects ---------------------------------------------

  lemma {:induction false} ItemsExactly(cx: Codec, schema: Schema, kind: Kind, js: seq<Json>)
    ensures DecItems(cx, schema, kind, js).Some? <==> forall j <- js :: DecElem(cx, schema, kind, j).Some?
    ensures
      var r := DecItems(cx, schema, kind, js);
      r.Some? ==> |r.value| == |js| && forall i :: 0 <= i < |js| ==> DecElem(cx, schema, kind, js[i]) == Some(r.value[i])
    decreases |js|
  {
    if js != [] {
      ItemsExactly(cx, schema, kind, js[1..]);
      assert js[0] in js && forall j :: j in js <==> j == js[0] || j in js[1..];
      var r := DecItems(cx, schema, kind, js);
      if r.Some? {
        forall i | 0 <= i < |js|
          ensures DecElem(cx, schema, kind, js[i]) == Some(r.value[i])
        {
          assert i > 0 ==> js[i] == js[1..][i - 1] && r.value[i] == DecItems(cx, schema, kind, js[1..]).value[i - 1];
        }
      }
    }
  }

  /** The last member under a key. */
  predicate IsLast(ms: seq<Member>, i: nat, key: string) {
    i < |ms| && ms[i].key == key && forall j :: i < j < |ms| ==> ms[j].key != key
  }

  ghost predicate HasKey(ms: seq<Member>, key: string) {
    exists i :: 0 <= i < |ms| && ms[i].key == key
  }

  lemma {:induction false} EntriesExactly(cx: Codec, schema: Schema, kind: Kind, ms: seq<Member>, acc: map<string, Value>)
    ensures DecEntries(cx, schema, kind, ms, acc).Some? <==> forall m <- ms :: DecElem(cx, schema, kind, m.val).Some?
    ensures
      var r := DecEntries(cx, schema, kind, ms, acc);
      r.Some? ==>
        && (forall k :: k in r.value <==> k in acc || HasKey(ms, k))
        && (forall i: nat, k :: IsLast(ms, i, k) ==> DecElem(cx, schema, kind, ms[i].val) == Some(r.value[k]))
        && (forall k :: k in acc && !HasKey(ms, k) ==> r.value[k] == acc[k])
    decreases |ms|
  {
    if ms != [] {
      var v := DecEntry(cx, schema, kind, ms[0]);
      var r := DecEntries(cx, schema, kind, ms, acc);
      if v.Some? {
        var acc' := acc[ms[0].key := v.value];
        EntriesExactly(cx, schema, kind, ms[1..], acc');
        FirstMember(ms);
        if r.Some? {
          forall i: nat, k | IsLast(ms, i, k)
            ensures DecElem(cx, schema, kind, ms[i].val) == Some(r.value[k])
          {
            LastInRest(ms, i, k);
          }
        }
      }
    }
  }

  lemma FirstMember(ms: seq<Member>)
    requires ms != []
    ensures forall m :: m in ms <==> m == ms[0] || m in ms[1..]
    ensures forall k :: HasKey(ms, k) <==> ms[0].key == k || HasKey(ms[1..], k)
  {
    assert ms == [ms[0]] + ms[1..];
    assert forall i :: 0 < i < |ms| ==> ms[i] == ms[1..][i - 1];
    assert forall i :: 0 <= i < |ms| - 1 ==> ms[1..][i] == ms[i + 1];
  }

  lemma LastInRest(ms: seq<Member>, i: nat, key: string)
    requires IsLast(ms, i, key)
    ensures if i == 0 then !HasKey(ms[1..], key) else IsLast(ms[1..], i - 1, key)
  {
    var rest := ms[1..];
    assert forall j :: 0 <= j < |rest| ==> rest[j] == ms[j + 1];
  }

  // ---- message objects ----------------------------------------------------

  /** The keys a message knows. */
  function FieldKeys(fs: seq<Field>): set<string> {
    set n <- Names(fs)
  }

  lemma {:induction false} FindFieldExactly(fs: seq<Field>, key: string)
    ensures FindField(fs, key).Some? <==> key in FieldKeys(fs)
    ensures FindField(fs, key).Some? ==> FindField(fs, key).value in fs && FindField(fs, key).value.name == key
    decreases |fs|
  {
    if fs != [] {
      FindFieldExactly(fs[1..], key);
      assert Names(fs) == [fs[0].name] + Names(fs[1..]);
    }
  }

  /** No key of `keys` stands twice. */
  ghost predicate Once(keys: set<string>, ms: seq<Member>) {
    forall i, j :: 0 <= i < j < |ms| && ms[i].key in keys ==> ms[i].key != ms[j].key
  }

  lemma OnceInRest(keys: set<string>, ms: seq<Member>)
    requires ms != []
    ensures Once(keys, ms) <==> Once(keys, ms[1..]) && (ms[0].key in keys ==> !HasKey(ms[1..], ms[0].key))
  {
    var rest := ms[1..];
    assert forall j :: 0 <= j < |rest| ==> rest[j] == ms[j + 1];
    if Once(keys, rest) && (ms[0].key in keys ==> !HasKey(rest, ms[0].key)) {
      forall i, j | 0 <= i < j < |ms| && ms[i].key in keys
        ensures ms[i].key != ms[j].key
      {
        assert ms[j] == rest[j - 1];
        assert i > 0 ==> ms[i] == rest[i - 1];
      }
    }
  }

  ghost predicate NoneSeen(keys: set<string>, ms: seq<Member>, seen: set<string>) {
    forall m <- ms :: m.key in keys ==> m.key !in seen
  }

  /** Going past the first member. */
  lemma SeenNext(keys: set<string>, ms: seq<Member>, seen: set<string>)
    requires ms != []
    ensures
      Once(keys, ms) && NoneSeen(keys, ms, seen)
      <==> if ms[0].key in keys then ms[0].key !in seen && Once(keys, ms[1..]) && NoneSeen(keys, ms[1..], seen + {ms[0].key})
           else Once(keys, ms[1..]) && NoneSeen(keys, ms[1..], seen)
  {
    FirstMember(ms);
    OnceInRest(keys, ms);
    if ms[0].key in keys {
      assert NoneSeen(keys, ms[1..], seen + {ms[0].key}) <==> NoneSeen(keys, ms[1..], seen) && !HasKey(ms[1..], ms[0].key);
    }
  }

  /** A member the message can take: a value of its field, or an unknown key that does
      not differ from a field's in case only. */
  ghost predicate Readable(cx: Codec, schema: Schema, fs: seq<Field>, m: Member) {
    match FindField(fs, m.key)
    case Some(f) => DecField(cx, schema, f.shape, m.val).Some?
    case None => !cx.folds(m.key, FieldKeys(fs))
  }

  /** `r` holds what each member says, and `acc` where no member speaks. */
  ghost predicate HoldsMembers(cx: Codec, schema: Schema, fs: seq<Field>, ms: seq<Member>, acc: map<string, Value>, r: map<string, Value>) {
    && (forall k :: k in r <==> k in acc || (k in FieldKeys(fs) && HasKey(ms, k)))
    && (forall m <- ms :: m.key in FieldKeys(fs) ==> m.key in r && FieldRead(cx, schema, fs, m, r[m.key]))
    && (forall k :: k in acc && !(k in FieldKeys(fs) && HasKey(ms, k)) ==> r[k] == acc[k])
  }

  ghost predicate FieldRead(cx: Codec, schema: Schema, fs: seq<Field>, m: Member, v: Value) {
    FindField(fs, m.key).Some? && DecField(cx, schema, FindField(fs, m.key).value.shape, m.val) == Some(v)
  }

  /** Which members a message can be read from, and what is read. */
  lemma {:induction false} MembersExactly(
    cx: Codec, schema: Schema, fs: seq<Field>, ms: seq<Member>, seen: set<string>, acc: map<string, Value>)
    ensures DecMembers(cx, schema, fs, ms, seen, acc).Some?
       <==> Once(FieldKeys(fs), ms) && NoneSeen(FieldKeys(fs), ms, seen) && forall m <- ms :: Readable(cx, schema, fs, m)
    ensures
      var r := DecMembers(cx, schema, fs, ms, seen, acc);
      r.Some? ==> HoldsMembers(cx, schema, fs, ms, acc, r.value)
    decreases |ms|
  {
    if ms != [] {
      FirstMember(ms);
      assert ms[0] in ms;
      SeenNext(FieldKeys(fs), ms, seen);
      FindFieldExactly(fs, ms[0].key);
      var known := FindField(fs, ms[0].key);
      var r := DecMembers(cx, schema, fs, ms, seen, acc);
      if known.None? {
        assert FieldKeys(fs) == set n <- Names(fs);
        assert Readable(cx, schema, fs, ms[0]) <==> !cx.folds(ms[0].key, set n <- Names(fs));
        MembersExactly(cx, schema, fs, ms[1..], seen, acc);
        if r.Some? {
          HoldsUnknown(cx, schema, fs, ms, acc, r.value);
        }
      } else {
        var v := DecMember(cx, schema, known.value.shape, ms[0]);
        assert v.Some? <==> Readable(cx, schema, fs, ms[0]);
        if v.Some? && ms[0].key !in seen {
          MembersExactly(cx, schema, fs, ms[1..], seen + {ms[0].key}, acc[ms[0].key := v.value]);
          if r.Some? {
            NotAgain(FieldKeys(fs), ms, seen);
            HoldsKnown(cx, schema, fs, ms, acc, v.value, r.value);
          }
        }
      }
    }
  }

  lemma NotAgain(keys: set<string>, ms: seq<Member>, seen: set<string>)
    requires ms != [] && ms[0].key in keys && NoneSeen(keys, ms[1..], seen + {ms[0].key})
    ensures !HasKey(ms[1..], ms[0].key)
  {
    assert forall i :: 0 <= i < |ms[1..]| ==> ms[1..][i] in ms[1..];
  }

  lemma HoldsUnknown(cx: Codec, schema: Schema, fs: seq<Field>, ms: seq<Member>, acc: map<string, Value>, r: map<string, Value>)
    requires ms != [] && ms[0].key !in FieldKeys(fs) && HoldsMembers(cx, schema, fs, ms[1..], acc, r)
    ensures HoldsMembers(cx, schema, fs, ms, acc, r)
  {
    FirstMember(ms);
  }

  lemma HoldsKnown(
    cx: Codec, schema: Schema, fs: seq<Field>, ms: seq<Member>, acc: map<string, Value>, v: Value, r: map<string, Value>)
    requires ms != [] && ms[0].key in FieldKeys(fs) && FieldRead(cx, schema, fs, ms[0], v) && !HasKey(ms[1..], ms[0].key)
    requires HoldsMembers(cx, schema, fs, ms[1..], acc[ms[0].key := v], r)
    ensures HoldsMembers(cx, schema, fs, ms, acc, r)
  {
    FirstMember(ms);
  }

  /** A document for a message: an object whose known keys stand once, each with a value
      of its field, and no key a field's but for its case. Fields it names hold what
      their members say, the others the zero of a fresh message. */
  lemma MessageExactly(cx: Codec, schema: Schema, name: string, j: Json)
    requires schema.Ok() && name in schema.messages && !j.JNull?
    ensures
      var fs := schema.messages[name];
      DecMsg(cx, schema, name, j).Some?
      <==> j.JObj? && Once(FieldKeys(fs), j.members) && forall m <- j.members :: Readable(cx, schema, fs, m)
    ensures
      var fs, r := schema.messages[name], DecMsg(cx, schema, name, j);
      r.Some? ==> r.value.VMsg? && HoldsMembers(cx, schema, fs, j.members, ZeroFields(fs), r.value.fields)
  {
    if j.JObj? {
      MembersExactly(cx, schema, schema.messages[name], j.members, {}, ZeroFields(schema.messages[name]));
    }
  }

  // ---- oneof objects ------------------------------------------------------

  function CaseKeys(disc: string, vs: seq<Variant>): set<string> {
    {disc} + set n <- VariantNames(vs)
  }

  lemma {:induction false} FindVariantExactly(vs: seq<Variant>, name: string)
    ensures FindVariant(vs, name).Some? <==> name in VariantNames(vs)
    decreases |vs|
  {
    if vs != [] {
      FindVariantExactly(vs[1..], name);
      assert VariantNames(vs) == [vs[0].name] + VariantNames(vs[1..]);
    }
  }

  /** A tag that is text or null, a variant's payload or null, or an unknown key that
      does not differ from these in case only. */
  ghost predicate CaseReadable(cx: Codec, schema: Schema, disc: string, vs: seq<Variant>, m: Member) {
    if m.key == disc then m.val.JNull? || m.val.JStr?
    else
      match FindVariant(vs, m.key)
      case Some(v) => m.val.JNull? || DecVal(cx, schema, v.kind, true, true, m.val).Some?
      case None => !cx.folds(m.key, CaseKeys(disc, vs))
  }

  /** `tag` is what the last text under the discriminator says, or `before`. */
  ghost predicate HoldsTag(disc: string, ms: seq<Member>, before: string, tag: string) {
    && (forall m <- ms :: m.key == disc && m.val.JStr? ==> tag == m.val.s)
    && ((forall m <- ms :: m.key == disc ==> !m.val.JStr?) ==> tag == before)
  }

  predicate Pays(disc: string, vs: seq<Variant>, m: Member) {
    m.key != disc && FindVariant(vs, m.key).Some? && !m.val.JNull?
  }

  ghost predicate HoldsPayloads(
    cx: Codec, schema: Schema, disc: string, vs: seq<Variant>, ms: seq<Member>, acc: map<string, Value>, r: map<string, Value>)
  {
    && (forall k :: k in r <==> k in acc || exists m <- ms :: m.key == k && Pays(disc, vs, m))
    && (forall m <- ms :: Pays(disc, vs, m) ==> m.key in r && DecVal(cx, schema, FindVariant(vs, m.key).value.kind, true, true, m.val) == Some(r[m.key]))
    && (forall k :: k in acc && (forall m <- ms :: m.key == k ==> !Pays(disc, vs, m)) ==> r[k] == acc[k])
  }

  lemma {:induction false} CaseExactly(
    cx: Codec, schema: Schema, disc: string, vs: seq<Variant>, ms: seq<Member>, seen: set<string>, tag: string, payloads: map<string, Value>)
    ensures DecCase(cx, schema, disc, vs, ms, seen, tag, payloads).Some?
       <==> Once(CaseKeys(disc, vs), ms) && NoneSeen(CaseKeys(disc, vs), ms, seen)
            && forall m <- ms :: CaseReadable(cx, schema, disc, vs, m)
    ensures
      var r := DecCase(cx, schema, disc, vs, ms, seen, tag, payloads);
      r.Some? ==> HoldsTag(disc, ms, tag, r.value.0) && HoldsPayloads(cx, schema, disc, vs, ms, payloads, r.value.1)
    decreases |ms|
  {
    if ms != [] {
      FirstMember(ms);
      SeenNext(CaseKeys(disc, vs), ms, seen);
      FindVariantExactly(vs, ms[0].key);
      var r := CaseStep(cx, schema, disc, vs)(ms[0], (seen, tag, payloads));
      CaseFirst(cx, schema, disc, vs, ms, seen, tag, payloads);
      assert r.Some? <==> CaseReadable(cx, schema, disc, vs, ms[0]) && (ms[0].key in CaseKeys(disc, vs) ==> ms[0].key !in seen);
      if r.Some? {
        CaseExactly(cx, schema, disc, vs, ms[1..], r.value.0, r.value.1, r.value.2);
        var end := DecCase(cx, schema, disc, vs, ms, seen, tag, payloads);
        if end.Some? {
          if ms[0].key in CaseKeys(disc, vs) {
            NotAgain(CaseKeys(disc, vs), ms, seen);
          }
          HoldsTagFirst(disc, ms, tag, r.value.1, end.value.0);
          HoldsPayloadFirst(cx, schema, disc, vs, ms, payloads, r.value.2, end.value.1);
        }
      }
    }
  }

  lemma HoldsTagFirst(disc: string, ms: seq<Member>, before: string, mid: string, tag: string)
    requires ms != [] && HoldsTag(disc, ms[1..], mid, tag) && (ms[0].key == disc ==> !HasKey(ms[1..], disc))
    requires mid == if ms[0].key == disc && ms[0].val.JStr? then ms[0].val.s else before
    ensures HoldsTag(disc, ms, before, tag)
  {
    FirstMember(ms);
    NoMember(ms[1..], disc);
  }

  lemma NoMember(ms: seq<Member>, key: string)
    ensures HasKey(ms, key) <==> exists m :: m in ms && m.key == key
  {
    if exists m :: m in ms && m.key == key {
      var m :| m in ms && m.key == key;
      var i :| 0 <= i < |ms| && ms[i] == m;
    }
  }

  lemma HoldsPayloadFirst(
    cx: Codec, schema: Schema, disc: string, vs: seq<Variant>, ms: seq<Member>,
    acc: map<string, Value>, mid: map<string, Value>, r: map<string, Value>)
    requires ms != [] && HoldsPayloads(cx, schema, disc, vs, ms[1..], mid, r)
    requires
      if Pays(disc, vs, ms[0]) then
        && DecVal(cx, schema, FindVariant(vs, ms[0].key).value.kind, true, true, ms[0].val).Some?
        && mid == acc[ms[0].key := DecVal(cx, schema, FindVariant(vs, ms[0].key).value.kind, true, true, ms[0].val).value]
        && !HasKey(ms[1..], ms[0].key)
      else mid == acc
    ensures HoldsPayloads(cx, schema, disc, vs, ms, acc, r)
  {
    FirstMember(ms);
    NoMember(ms[1..], ms[0].key);
  }

  lemma {:induction false} FindTagIn(vs: seq<Variant>, tag: string)
    ensures FindTag(vs, tag).Some? ==> FindTag(vs, tag).value in vs && FindTag(vs, tag).value.tag == tag
    decreases |vs|
  {
    if vs != [] && vs[0].tag != tag {
      FindTagIn(vs[1..], tag);
    }
  }

  /** The payload the document has for a variant, or a zero. */
  ghost predicate PayloadTaken(cx: Codec, schema: Schema, disc: string, vs: seq<Variant>, ms: seq<Member>, v: Variant, payload: Value) {
    && (forall m <- ms :: m.key == v.name && Pays(disc, vs, m) ==>
          DecVal(cx, schema, FindVariant(vs, v.name).value.kind, true, true, m.val) == Some(payload))
    && ((forall m <- ms :: m.key == v.name ==> !Pays(disc, vs, m)) ==> payload == ZeroOf(v.kind))
  }

  /** A oneof object: known keys once, each readable. The variant is the one whose tag
      the document names, wherever in the object; an unknown tag leaves the oneof unset. */
  lemma OneofExactly(cx: Codec, schema: Schema, disc: string, vs: seq<Variant>, ms: seq<Member>, tag: string)
    requires Distinct(VariantTags(vs)) && HoldsTag(disc, ms, "", tag)
    ensures
      var r := DecField(cx, schema, Oneof(disc, vs), JObj(ms));
      && (r.Some? <==> Once(CaseKeys(disc, vs), ms) && forall m <- ms :: CaseReadable(cx, schema, disc, vs, m))
      && (r.Some? && (forall v <- vs :: v.tag != tag) ==> r.value == VNil)
      && (r.Some? ==> forall v <- vs :: v.tag == tag ==>
            r.value.VCase? && r.value.name == v.name && PayloadTaken(cx, schema, disc, vs, ms, v, r.value.payload))
  {
    CaseExactly(cx, schema, disc, vs, ms, {}, "", map[]);
    var c := DecCase(cx, schema, disc, vs, ms, {}, "", map[]);
    if c.Some? {
      assert c.value.0 == tag;
      FindTagIn(vs, tag);
      forall v | v in vs && v.tag == tag
        ensures Chosen(vs, tag, c.value.1).VCase? && Chosen(vs, tag, c.value.1).name == v.name
        ensures PayloadTaken(cx, schema, disc, vs, ms, v, Chosen(vs, tag, c.value.1).payload)
      {
        FindTagOf(vs, v);
      }
    }
  }
}
