/**
 What AppendJSON writes of a message, said without its conditions: which members stand
 in the object and in which order, and exactly when it returns an error.
 */
module JsonWriter {

  import opened Wrappers
  import opened JsonModel
  import opened JsonAppend
  import opened JsonDecode
  import opened JsonRoundTrip
  import opened JsonReader
  import opened JsonSound

  // ---- which members are written ------------------------------------------

  /** Always sent, or written with its zero, or of a kind that is always written:
      integers as text and numbered enums. */
  predicate AlwaysWritten(s: Shape) {
    match s
    case Nullable(_, alwaysSent) => alwaysSent
    case Message(_, alwaysSent) => alwaysSent
    case MapOf(_, emitZero) => emitZero
    case Repeated(_, emitZero) => emitZero
    case Plain(kind, emitZero) => emitZero || kind.KIntString? || kind.KEnumNumber?
    case Oneof(_, _) => false
    case Optional(_) => false
  }

  /** Empty bytes, lists and maps, which are not nil but are left out like nil. */
  predicate Empty(s: Shape, v: Value) {
    (s.Plain? && v == VBytes([])) || (s.Repeated? && v == VList([])) || (s.MapOf? && v == VMap(map[]))
  }

  /** Written unless it is what a fresh message has there, or empty. */
  predicate Written(s: Shape, v: Value) {
    AlwaysWritten(s) || (v != ZeroField(s) && !Empty(s, v))
  }

  function WrittenNames(fs: seq<Field>, v: Value): seq<string>
    requires v.VMsg?
  {
    if fs == [] then []
    else (if fs[0].name in v.fields && Written(fs[0].shape, v.fields[fs[0].name]) then [fs[0].name] else []) + WrittenNames(fs[1..], v)
  }

  function Keys(ms: seq<Member>): (r: seq<string>)
    ensures |r| == |ms| && forall i :: 0 <= i < |ms| ==> r[i] == ms[i].key
  {
    seq(|ms|, i requires 0 <= i < |ms| => ms[i].key)
  }

  lemma WrittenIfPresent(s: Shape, v: Value)
    requires Stores(s, v)
    ensures Present(s, v) <==> Written(s, v)
  {
  }

  lemma {:induction false} FieldsWritten(cx: Codec, schema: Schema, owner: string, fs: seq<Field>, v: Value)
    requires v.VMsg? && EncFields(cx, schema, owner, fs, v).Some?
    ensures Keys(EncFields(cx, schema, owner, fs, v).value) == WrittenNames(fs, v)
    decreases |fs|
  {
    if fs != [] {
      var x := v.fields[fs[0].name];
      FieldsWritten(cx, schema, owner, fs[1..], v);
      WrittenIfPresent(fs[0].shape, x);
      if Written(fs[0].shape, x) {
        var j, rest := EncBody(cx, schema, owner, fs[0].shape, x).value, EncFields(cx, schema, owner, fs[1..], v).value;
        assert Keys([Member(fs[0].name, j)] + rest) == [fs[0].name] + Keys(rest);
      }
    }
  }

  /** The object has a member for each field that differs from a fresh message's, or is
      always written, in schema order, and no other. */
  lemma MembersAreWritten(cx: Codec, schema: Schema, name: string, v: Value)
    requires v.VMsg? && EncMsg(cx, schema, name, v).Some?
    ensures
      var j := EncMsg(cx, schema, name, v).value;
      j.JObj? && name in schema.messages && Keys(j.members) == WrittenNames(schema.messages[name], v)
  {
    FieldsWritten(cx, schema, name, schema.messages[name], v);
  }

  // ---- when writing fails -------------------------------------------------

  lemma ScalarWritable(cx: Codec, schema: Schema, kind: Kind, v: Value)
    requires !kind.KMessage? && HoldsVal(schema, kind, v, false)
    ensures EncScalar(cx, kind, v).Some? <==> HoldsVal(schema, kind, v, true)
  {
  }

  lemma {:induction false} ValWritable(cx: Codec, schema: Schema, kind: Kind, v: Value)
    requires cx.Ok() && schema.Ok() && schema.KindOk(kind) && HoldsVal(schema, kind, v, false)
    ensures EncVal(cx, schema, kind, v).Some? <==> HoldsVal(schema, kind, v, true)
    decreases 1, 0, v, 3
  {
    if !kind.KMessage? {
      ScalarWritable(cx, schema, kind, v);
    } else if v.VMsg? {
      MessageWritable(cx, schema, kind.message, v, false);
    }
  }

  lemma {:induction false} ItemsWritable(cx: Codec, schema: Schema, kind: Kind, items: seq<Value>)
    requires cx.Ok() && schema.Ok() && schema.KindOk(kind) && forall x <- items :: HoldsVal(schema, kind, x, false)
    ensures EncItems(cx, schema, kind, items).Some? <==> forall x <- items :: HoldsVal(schema, kind, x, true)
    decreases 1, 0, items, 4
  {
    if items != [] {
      assert forall x :: x in items <==> x == items[0] || x in items[1..];
      ValWritable(cx, schema, kind, items[0]);
      ItemsWritable(cx, schema, kind, items[1..]);
    }
  }

  lemma {:induction false} EntriesWritable(cx: Codec, schema: Schema, kind: Kind, keys: seq<string>, v: Value)
    requires cx.Ok() && schema.Ok() && schema.KindOk(kind) && v.VMap? && forall k <- keys :: k in v.entries
    requires forall k <- v.entries :: HoldsVal(schema, kind, v.entries[k], false)
    ensures EncEntries(cx, schema, kind, keys, v).Some? <==> forall k <- keys :: HoldsVal(schema, kind, v.entries[k], true)
    decreases 1, 0, v, 3, |keys|
  {
    if keys != [] {
      assert forall k :: k in keys <==> k == keys[0] || k in keys[1..];
      ValWritable(cx, schema, kind, v.entries[keys[0]]);
      EntriesWritable(cx, schema, kind, keys[1..], v);
    }
  }

  lemma AllKeysWritten(cx: Codec, v: Value)
    requires cx.Ok() && v.VMap?
    ensures forall k :: k in cx.order(v.entries.Keys) <==> k in v.entries
  {
    var keys := cx.order(v.entries.Keys);
    assert (set k <- keys) == v.entries.Keys;
    assert forall k :: k in keys <==> k in set k <- keys;
  }

  /** A member that is written fails exactly if something below it is invalid. */
  lemma {:induction false} BodyWritable(cx: Codec, schema: Schema, owner: string, s: Shape, v: Value, zero: bool)
    requires cx.Ok() && schema.Ok() && schema.ShapeOk(owner, s) && HoldsField(schema, s, v, false) && Present(s, v)
    requires zero ==> v == ZeroField(s) && owner in schema.rank
    ensures EncBody(cx, schema, owner, s, v).Some? <==> HoldsField(schema, s, v, true)
    decreases Level(zero), RankOf(schema, zero, owner), v, 5
  {
    match s
    case Oneof(_, vs) =>
      if v.VCase? {
        FindVariantIn(vs, v.name);
        ValWritable(cx, schema, FindVariant(vs, v.name).value.kind, v.payload);
      }
    case Nullable(kind, _) =>
      if !v.ptr.VNil? {
        ValWritable(cx, schema, kind, if kind.KMessage? then v.ptr else v.ptr.target);
      }
    case MapOf(kind, _) =>
      if v.VMap? {
        AllKeysWritten(cx, v);
        EntriesWritable(cx, schema, kind, cx.order(v.entries.Keys), v);
      }
    case Repeated(kind, _) => if v.VList? { ItemsWritable(cx, schema, kind, v.items); }
    case Message(m, _) =>
      if v.VMsg? {
        MessageWritable(cx, schema, m, v, false);
      } else {
        NewWritable(cx, schema, owner, m, zero);
      }
    case Optional(kind) => ScalarWritable(cx, schema, kind, v.target);
    case Plain(kind, _) => ScalarWritable(cx, schema, kind, v);
  }

  /** The message written in place of an unset one never fails. */
  lemma {:induction false} NewWritable(cx: Codec, schema: Schema, owner: string, m: string, zero: bool)
    requires cx.Ok() && schema.Ok() && schema.ShapeOk(owner, Message(m, true)) && (zero ==> owner in schema.rank)
    ensures EncZero(cx, schema, m).Some?
    decreases Level(zero), RankOf(schema, zero, owner), VNil, 4
  {
    var fs := schema.messages[m];
    var made := VMsg(ZeroFields(fs));
    assert fs[0..] == fs;
    EncZeroIsNew(cx, schema, m, fs, 0);
    FreshIsHeld(schema, m);
    SoundIsHeld(schema, m, made);
    MessageWritable(cx, schema, m, made, true);
  }

  lemma SoundIsHeld(schema: Schema, name: string, v: Value)
    requires v.VMsg? && name in schema.messages && HoldsSoFar(schema, schema.messages[name], v.fields)
    ensures HoldsMsg(schema, name, v, true) && HoldsMsg(schema, name, v, false)
  {
    ValidIsHeld(schema, name, v);
  }

  lemma ValidValIsHeld(schema: Schema, kind: Kind, v: Value)
    requires HoldsVal(schema, kind, v, true)
    ensures HoldsVal(schema, kind, v, false)
    decreases v, 1
  {
    if kind.KMessage? && v.VMsg? {
      ValidIsHeld(schema, kind.message, v);
    }
  }

  lemma ValidFieldIsHeld(schema: Schema, s: Shape, v: Value)
    requires HoldsField(schema, s, v, true)
    ensures HoldsField(schema, s, v, false)
    decreases v, 2
  {
    match s
    case Oneof(_, vs) => if v.VCase? { ValidValIsHeld(schema, FindVariant(vs, v.name).value.kind, v.payload); }
    case Nullable(kind, _) => if !v.ptr.VNil? { ValidValIsHeld(schema, kind, if kind.KMessage? then v.ptr else v.ptr.target); }
    case MapOf(kind, _) =>
      if v.VMap? {
        forall k | k in v.entries ensures HoldsVal(schema, kind, v.entries[k], false) { ValidValIsHeld(schema, kind, v.entries[k]); }
      }
    case Repeated(kind, _) =>
      if v.VList? {
        forall x | x in v.items ensures HoldsVal(schema, kind, x, false) { ValidValIsHeld(schema, kind, x); }
      }
    case Message(m, _) => if v.VMsg? { ValidIsHeld(schema, m, v); }
    case Optional(kind) => if v.VPtr? { ValidValIsHeld(schema, kind, v.target); }
    case Plain(kind, _) => ValidValIsHeld(schema, kind, v);
  }

  lemma ValidIsHeld(schema: Schema, name: string, v: Value)
    requires HoldsMsg(schema, name, v, true)
    ensures HoldsMsg(schema, name, v, false)
    decreases v, 0
  {
    forall f | f in schema.messages[name]
      ensures HoldsField(schema, f.shape, v.fields[f.name], false)
    {
      ValidFieldIsHeld(schema, f.shape, v.fields[f.name]);
    }
  }

  /** What is left out is valid. */
  lemma AbsentIsValid(schema: Schema, owner: string, s: Shape, v: Value)
    requires schema.ShapeOk(owner, s) && HoldsField(schema, s, v, false) && !Present(s, v)
    ensures HoldsField(schema, s, v, true)
  {
  }

  lemma {:induction false} FieldsWritable(cx: Codec, schema: Schema, owner: string, i: nat, v: Value, zero: bool)
    requires cx.Ok() && schema.Ok() && HoldsMsg(schema, owner, v, false) && (zero ==> ZeroMsg(schema, owner, v))
    requires i <= |schema.messages[owner]|
    ensures
      var fs := schema.messages[owner];
      EncFields(cx, schema, owner, fs[i..], v).Some? <==> forall f <- fs[i..] :: HoldsField(schema, f.shape, v.fields[f.name], true)
    decreases Level(zero), RankOf(schema, zero, owner), v, 1, |schema.messages[owner]| - i
  {
    var fs := schema.messages[owner];
    if i < |fs| {
      assert fs[i] in fs;
      if zero {
        ZeroFieldsAt(fs, i);
      }
      FieldWritable(cx, schema, owner, fs[i].shape, v.fields[fs[i].name], zero);
      FieldsWritable(cx, schema, owner, i + 1, v, zero);
      OneFieldThenRest(cx, schema, owner, fs, i, v);
    }
  }

  lemma {:induction false} FieldWritable(cx: Codec, schema: Schema, owner: string, s: Shape, x: Value, zero: bool)
    requires cx.Ok() && schema.Ok() && schema.ShapeOk(owner, s) && HoldsField(schema, s, x, false)
    requires zero ==> x == ZeroField(s) && owner in schema.rank
    ensures HoldsField(schema, s, x, true) <==> Present(s, x) ==> EncBody(cx, schema, owner, s, x).Some?
    decreases Level(zero), RankOf(schema, zero, owner), x, 6
  {
    if Present(s, x) {
      BodyWritable(cx, schema, owner, s, x, zero);
    } else {
      AbsentIsValid(schema, owner, s, x);
    }
  }

  lemma OneFieldThenRest(cx: Codec, schema: Schema, owner: string, fs: seq<Field>, i: nat, v: Value)
    requires v.VMsg? && i < |fs| && fs[i].name in v.fields && Stores(fs[i].shape, v.fields[fs[i].name])
    ensures
      var x := v.fields[fs[i].name];
      EncFields(cx, schema, owner, fs[i..], v).Some?
      <==> (Present(fs[i].shape, x) ==> EncBody(cx, schema, owner, fs[i].shape, x).Some?) && EncFields(cx, schema, owner, fs[i + 1..], v).Some?
    ensures forall f :: f in fs[i..] <==> f == fs[i] || f in fs[i + 1..]
  {
    assert fs[i..] == [fs[i]] + fs[i + 1..] && fs[i..][1..] == fs[i + 1..];
  }

  /** AppendJSON returns an error exactly if some enum value is not the schema's, or
      some raw field is not JSON, anywhere below. */
  lemma {:induction false} MessageWritable(cx: Codec, schema: Schema, name: string, v: Value, zero: bool)
    requires cx.Ok() && schema.Ok() && HoldsMsg(schema, name, v, false) && (zero ==> ZeroMsg(schema, name, v))
    ensures EncMsg(cx, schema, name, v).Some? <==> HoldsMsg(schema, name, v, true)
    decreases Level(zero), RankOf(schema, zero, name), v, 2
  {
    assert schema.messages[name][0..] == schema.messages[name];
    FieldsWritable(cx, schema, name, 0, v, zero);
  }

  /** Whatever document was accepted, what was read from it can be written. */
  lemma DecodedCanBeWritten(cx: Codec, schema: Schema, name: string, j: Json)
    requires cx.Ok() && schema.Ok() && DecMsg(cx, schema, name, j).Some?
    ensures
      var v := DecMsg(cx, schema, name, j).value;
      v.VMsg? && EncMsg(cx, schema, name, v).Some?
  {
    MessageSound(cx, schema, name, j);
    var v := DecMsg(cx, schema, name, j).value;
    ValidIsHeld(schema, name, v);
    MessageWritable(cx, schema, name, v, false);
  }
}
