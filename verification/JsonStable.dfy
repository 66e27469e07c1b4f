/**
 One round trip is enough: what has been read back can be written again, and is
 its own normal form.
 */
module JsonStable {

  import opened JsonModel
  import opened JsonAppend
  import opened JsonDecode
  import opened JsonNorm
  import opened JsonRoundTrip

  lemma {:induction false} MessageStable(cx: Codec, schema: Schema, name: string, v: Value, zero: bool)
    requires cx.Ok() && schema.Ok() && v.VMsg? && EncMsg(cx, schema, name, v).Some? && (zero ==> ZeroMsg(schema, name, v))
    ensures NormMsg(schema, name, NormMsg(schema, name, v)) == NormMsg(schema, name, v)
    ensures EncMsg(cx, schema, name, NormMsg(schema, name, v)).Some?
    decreases Level(zero), RankOf(schema, zero, name), v, 2
  {
    var fs := schema.messages[name];
    forall i | 0 <= i < |fs|
      ensures FieldSettled(cx, schema, name, i, v)
    {
      FieldOfMessageStable(cx, schema, name, i, v, zero);
    }
    AllSettled(cx, schema, name, v);
  }

  /** A field of the normal form is its own normal form, and can be written. */
  ghost predicate FieldSettled(cx: Codec, schema: Schema, name: string, i: nat, v: Value)
    requires v.VMsg? && name in schema.messages && i < |schema.messages[name]|
  {
    var f, norm := schema.messages[name][i], NormMsg(schema, name, v);
    && Writable(cx, schema, name, f, norm)
    && f.name in NormFields(schema, name, schema.messages[name], norm)
    && NormFields(schema, name, schema.messages[name], norm)[f.name] == norm.fields[f.name]
  }

  lemma AllSettled(cx: Codec, schema: Schema, name: string, v: Value)
    requires v.VMsg? && name in schema.messages
    requires forall i :: 0 <= i < |schema.messages[name]| ==> FieldSettled(cx, schema, name, i, v)
    ensures NormMsg(schema, name, NormMsg(schema, name, v)) == NormMsg(schema, name, v)
    ensures EncMsg(cx, schema, name, NormMsg(schema, name, v)).Some?
  {
    var fs, norm := schema.messages[name], NormMsg(schema, name, v);
    NormFieldsKeys(schema, name, fs, v);
    NormFieldsKeys(schema, name, fs, norm);
    forall k | k in norm.fields
      ensures NormFields(schema, name, fs, norm)[k] == norm.fields[k]
    {
      var i :| 0 <= i < |fs| && Names(fs)[i] == k;
      assert FieldSettled(cx, schema, name, i, v);
    }
    forall i | 0 <= i < |fs|
      ensures Writable(cx, schema, name, fs[i], norm)
    {
      assert FieldSettled(cx, schema, name, i, v);
    }
    AllWritable(cx, schema, name, fs, norm);
  }

  /** A field of the message is stored, and can be written if it has to be. */
  predicate Writable(cx: Codec, schema: Schema, owner: string, f: Field, v: Value)
    requires v.VMsg?
  {
    f.name in v.fields && Stores(f.shape, v.fields[f.name])
    && (Present(f.shape, v.fields[f.name]) ==> EncBody(cx, schema, owner, f.shape, v.fields[f.name]).Some?)
  }

  lemma {:induction false} AllWritable(cx: Codec, schema: Schema, owner: string, fs: seq<Field>, v: Value)
    requires v.VMsg? && forall i :: 0 <= i < |fs| ==> Writable(cx, schema, owner, fs[i], v)
    ensures EncFields(cx, schema, owner, fs, v).Some?
    decreases |fs|
  {
    if fs != [] {
      assert Writable(cx, schema, owner, fs[0], v);
      AllWritable(cx, schema, owner, fs[1..], v);
    }
  }

  lemma {:induction false} FieldOfMessageStable(cx: Codec, schema: Schema, name: string, i: nat, v: Value, zero: bool)
    requires cx.Ok() && schema.Ok() && v.VMsg? && EncMsg(cx, schema, name, v).Some? && (zero ==> ZeroMsg(schema, name, v))
    requires i < |schema.messages[name]|
    ensures FieldSettled(cx, schema, name, i, v)
    decreases Level(zero), RankOf(schema, zero, name), v, 1
  {
    var fs, norm := schema.messages[name], NormMsg(schema, name, v);
    assert fs[0..] == fs;
    EncFieldsFrom(cx, schema, name, fs, 0, i, v);
    EncFieldsAt(cx, schema, name, fs, i, v);
    NormFieldsKeys(schema, name, fs, v);
    assert fs[i].name == Names(fs)[i];
    NormFieldsAt(schema, name, fs, v, i);
    NormFieldsAt(schema, name, fs, norm, i);
    if zero {
      ZeroFieldsAt(fs, i);
    }
    FieldStable(cx, schema, name, fs[i].shape, v.fields[fs[i].name], zero);
  }

  lemma {:induction false} EncFieldsFrom(cx: Codec, schema: Schema, owner: string, fs: seq<Field>, from: nat, i: nat, v: Value)
    requires cx.Ok() && schema.Ok() && owner in schema.messages && fs == schema.messages[owner] && from <= i < |fs| && v.VMsg?
    requires EncFields(cx, schema, owner, fs[from..], v).Some?
    ensures EncFields(cx, schema, owner, fs[i..], v).Some?
    decreases i - from
  {
    if from < i {
      EncFieldsAt(cx, schema, owner, fs, from, v);
      EncFieldsFrom(cx, schema, owner, fs, from + 1, i, v);
    }
  }

  lemma {:induction false} FieldStable(cx: Codec, schema: Schema, owner: string, s: Shape, v: Value, zero: bool)
    requires cx.Ok() && schema.Ok() && schema.ShapeOk(owner, s) && Stores(s, v) && (Present(s, v) ==> EncBody(cx, schema, owner, s, v).Some?)
    requires zero ==> v == ZeroField(s) && owner in schema.rank
    ensures
      var norm := NormField(schema, owner, s, v);
      NormField(schema, owner, s, norm) == norm && Stores(s, norm) && (Present(s, norm) ==> EncBody(cx, schema, owner, s, norm).Some?)
    decreases Level(zero), RankOf(schema, zero, owner), v, 4
  {
    match s
    case Oneof(_, _) => if v.VCase? { CaseStable(cx, schema, v, owner, s); }
    case Nullable(kind, _) => if kind.KMessage? && v.ptr.VMsg? { MessageStable(cx, schema, kind.message, v.ptr, false); }
    case MapOf(kind, _) =>
      if v.VMap? && |v.entries| > 0 {
        EntriesStable(cx, schema, kind, v);
      } else {
        EmptyMapStable(cx, schema, owner, s, v);
      }
    case Repeated(kind, _) => if v.VList? && |v.items| > 0 { ItemsStable(cx, schema, kind, v.items); }
    case Message(m, alwaysSent) =>
      if v.VMsg? {
        MessageStable(cx, schema, m, v, false);
      } else if alwaysSent {
        var fs := schema.messages[m];
        var made := VMsg(ZeroFields(fs));
        assert fs[0..] == fs;
        EncZeroIsNew(cx, schema, m, fs, 0);
        NormZeroIsNew(schema, m, fs, 0);
        assert EncMsg(cx, schema, m, made) == EncZero(cx, schema, m);
        MessageStable(cx, schema, m, made, true);
      }
    case Optional(kind) => OptionalStable(cx, schema, owner, s, v);
    case Plain(_, _) => PlainStable(cx, schema, owner, s, v);
  }

  lemma EmptyMapStable(cx: Codec, schema: Schema, owner: string, s: Shape, v: Value)
    requires cx.Ok() && s.MapOf? && Stores(s, v) && (v.VMap? ==> |v.entries| == 0)
    ensures
      var norm := NormField(schema, owner, s, v);
      NormField(schema, owner, s, norm) == norm && Stores(s, norm) && (Present(s, norm) ==> EncBody(cx, schema, owner, s, norm).Some?)
  {
    var none: map<string, Value> := map[];
    var keys := cx.order(none.Keys);
    SomeKey(keys);
    assert (set k <- keys) == none.Keys;
  }

  lemma SomeKey(keys: seq<string>)
    ensures keys != [] ==> keys[0] in (set k <- keys)
  {
  }

  lemma OptionalStable(cx: Codec, schema: Schema, owner: string, s: Shape, v: Value)
    requires schema.ShapeOk(owner, s) && s.Optional? && Stores(s, v) && (Present(s, v) ==> EncBody(cx, schema, owner, s, v).Some?)
    ensures
      var norm := NormField(schema, owner, s, v);
      NormField(schema, owner, s, norm) == norm && Stores(s, norm) && (Present(s, norm) ==> EncBody(cx, schema, owner, s, norm).Some?)
  {
  }

  lemma PlainStable(cx: Codec, schema: Schema, owner: string, s: Shape, v: Value)
    requires schema.ShapeOk(owner, s) && s.Plain? && Stores(s, v) && (Present(s, v) ==> EncBody(cx, schema, owner, s, v).Some?)
    ensures
      var norm := NormField(schema, owner, s, v);
      NormField(schema, owner, s, norm) == norm && Stores(s, norm) && (Present(s, norm) ==> EncBody(cx, schema, owner, s, norm).Some?)
  {
  }

  lemma {:induction false} ElemStable(cx: Codec, schema: Schema, kind: Kind, v: Value)
    requires cx.Ok() && schema.Ok() && EncVal(cx, schema, kind, v).Some?
    ensures NormElem(schema, kind, NormElem(schema, kind, v)) == NormElem(schema, kind, v)
    ensures EncVal(cx, schema, kind, NormElem(schema, kind, v)).Some?
    decreases 1, 0, v, 3
  {
    if kind.KMessage? && v.VMsg? {
      MessageStable(cx, schema, kind.message, v, false);
    }
  }

  lemma {:induction false} CaseStable(cx: Codec, schema: Schema, v: Value, owner: string, s: Shape)
    requires cx.Ok() && schema.Ok() && s.Oneof? && v.VCase? && Stores(s, v) && EncBody(cx, schema, owner, s, v).Some?
    ensures
      var norm := NormField(schema, owner, s, v);
      NormField(schema, owner, s, norm) == norm && Stores(s, norm) && EncBody(cx, schema, owner, s, norm).Some?
    decreases 1, 0, v, 3
  {
    var variant := FindVariant(s.variants, v.name).value;
    var norm := NormField(schema, owner, s, v);
    assert EncCase(cx, schema, s.disc, variant, v).Some?;
    assert norm == VCase(v.name, NormPayload(schema, variant.kind, v.payload));
    if !(variant.kind.KMessage? && v.payload.VNil?) {
      PayloadStable(cx, schema, variant.kind, v.payload);
    }
    assert EncCase(cx, schema, s.disc, variant, norm).Some?;
  }

  lemma {:induction false} PayloadStable(cx: Codec, schema: Schema, kind: Kind, v: Value)
    requires cx.Ok() && schema.Ok() && EncVal(cx, schema, kind, v).Some?
    ensures
      var norm := NormPayload(schema, kind, v);
      NormPayload(schema, kind, norm) == norm && Fits(kind, norm) && EncVal(cx, schema, kind, norm).Some?
    decreases 1, 0, v, 4
  {
    if !kind.KRaw? {
      ElemStable(cx, schema, kind, v);
    }
  }

  lemma {:induction false} ItemsStable(cx: Codec, schema: Schema, kind: Kind, items: seq<Value>)
    requires cx.Ok() && schema.Ok() && EncItems(cx, schema, kind, items).Some?
    ensures |NormItems(schema, kind, items)| == |items|
    ensures NormItems(schema, kind, NormItems(schema, kind, items)) == NormItems(schema, kind, items)
    ensures EncItems(cx, schema, kind, NormItems(schema, kind, items)).Some?
    decreases 1, 0, items
  {
    if items != [] {
      ElemStable(cx, schema, kind, items[0]);
      ItemsStable(cx, schema, kind, items[1..]);
      assert NormItems(schema, kind, items)[1..] == NormItems(schema, kind, items[1..]);
    }
  }

  lemma {:induction false} EntriesStable(cx: Codec, schema: Schema, kind: Kind, v: Value)
    requires cx.Ok() && schema.Ok() && v.VMap? && EncEntries(cx, schema, kind, cx.order(v.entries.Keys), v).Some?
    ensures var norm := NormEntries(schema, kind, v);
            |norm| == |v.entries| && NormEntries(schema, kind, VMap(norm)) == norm
            && EncEntries(cx, schema, kind, cx.order(norm.Keys), VMap(norm)).Some?
    decreases 1, 0, v, 3
  {
    var norm, keys := NormEntries(schema, kind, v), cx.order(v.entries.Keys);
    assert norm.Keys == v.entries.Keys && (set k <- keys) == v.entries.Keys;
    assert |norm.Keys| == |v.entries.Keys|;
    forall k | k in keys
      ensures EntryStable(cx, schema, kind, norm, k)
    {
      assert k in (set x <- keys);
      EntryWritten(cx, schema, kind, keys, v, k);
      ElemStable(cx, schema, kind, v.entries[k]);
    }
    EntriesWritable(cx, schema, kind, keys, norm);
    EntriesNormal(cx, schema, kind, keys, norm);
  }

  lemma EntriesNormal(cx: Codec, schema: Schema, kind: Kind, keys: seq<string>, entries: map<string, Value>)
    requires (set k <- keys) == entries.Keys && forall k <- keys :: EntryStable(cx, schema, kind, entries, k)
    ensures NormEntries(schema, kind, VMap(entries)) == entries
  {
    forall k | k in entries
      ensures NormElem(schema, kind, entries[k]) == entries[k]
    {
      assert k in (set x <- keys) && EntryStable(cx, schema, kind, entries, k);
    }
  }

  predicate EntryStable(cx: Codec, schema: Schema, kind: Kind, entries: map<string, Value>, k: string) {
    k in entries && EncVal(cx, schema, kind, entries[k]).Some? && NormElem(schema, kind, entries[k]) == entries[k]
  }

  lemma {:induction false} EntriesWritable(cx: Codec, schema: Schema, kind: Kind, keys: seq<string>, entries: map<string, Value>)
    requires forall k <- keys :: EntryStable(cx, schema, kind, entries, k)
    ensures EncEntries(cx, schema, kind, keys, VMap(entries)).Some?
    decreases |keys|
  {
    if keys != [] {
      assert EntryStable(cx, schema, kind, entries, keys[0]);
      EntriesWritable(cx, schema, kind, keys[1..], entries);
    }
  }

  lemma {:induction false} EntryWritten(cx: Codec, schema: Schema, kind: Kind, keys: seq<string>, v: Value, k: string)
    requires v.VMap? && EncEntries(cx, schema, kind, keys, v).Some? && k in keys
    ensures k in v.entries && EncVal(cx, schema, kind, v.entries[k]).Some?
    decreases |keys|
  {
    if keys[0] != k {
      EntryWritten(cx, schema, kind, keys[1..], v, k);
    }
  }

  /** A message that has been written and read back survives every further round
      trip unchanged. */
  lemma SecondRoundTripIsExact(cx: Codec, schema: Schema, name: string, v: Value)
    requires cx.Ok() && schema.Ok() && v.VMsg? && EncMsg(cx, schema, name, v).Some?
    ensures
      var w := DecMsg(cx, schema, name, EncMsg(cx, schema, name, v).value);
      && w.Some? && w.value.VMsg? && EncMsg(cx, schema, name, w.value).Some?
      && DecMsg(cx, schema, name, EncMsg(cx, schema, name, w.value).value) == w
  {
    DecodeOfAppend(cx, schema, name, v);
    MessageStable(cx, schema, name, v, false);
    DecodeOfAppend(cx, schema, name, NormMsg(schema, name, v));
  }
}
