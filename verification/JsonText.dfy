/**
 The text AppendJSON appends: the emitted code with its loops, every object written by
 the program of the separator compiler, is the printed form of the JSON tree that
 `EncMsg` gives; it returns an error where there is no tree.
 */
module JsonText {

  import opened Wrappers
  import opened JsonModel
  import opened JsonAppend
  import opened JsonRoundTrip
  import opened JsonWriter
  import Separators

  // ---- printing -----------------------------------------------------------

  /** The library's encoders, and the routine that quotes and escapes a string. */
  datatype Text = Text(cx: Codec, quote: string -> string) {
    /** A string that needs no escaping. */
    predicate Plain(s: string) {
      quote(s) == "\"" + s + "\""
    }

    /** Digits and encoded bytes need no escaping, nor do the names of a schema. */
    ghost predicate Ok(schema: Schema) {
      && cx.Ok() && schema.Ok()
      && (forall i :: Plain(cx.digits(i))) && (forall scheme, b :: Plain(cx.encode(scheme, b)))
      && (forall m <- schema.messages, f <- schema.messages[m] :: Plain(f.name) && PlainShape(f.shape))
    }

    predicate PlainShape(s: Shape) {
      s.Oneof? ==> Plain(s.disc) && forall v <- s.variants :: Plain(v.name) && Plain(v.tag)
    }

    /** Compact JSON. */
    function Print(j: Json): string {
      match j
      case JNull => "null"
      case JBool(b) => if b then "true" else "false"
      case JInt(i) => cx.digits(i)
      case JStr(s) => quote(s)
      case JArr(items) => "[" + Separators.Join(Items(items)) + "]"
      case JObj(members) => Separators.Object(Members(members))
    }

    function Items(items: seq<Json>): seq<string> {
      seq(|items|, i requires 0 <= i < |items| => Print(items[i]))
    }

    function Member(m: Member): string {
      quote(m.key) + ":" + Print(m.val)
    }

    function Members(ms: seq<Member>): seq<string> {
      seq(|ms|, i requires 0 <= i < |ms| => Member(ms[i]))
    }

    /** The buffer after a value has been appended, or the error. */
    function Appended(b: string, j: Option<Json>): Option<string> {
      match j
      case None => None
      case Some(j) => Some(b + Print(j))
    }
  }

  // ---- separators of a plain loop -----------------------------------------

  /** `if i > 0 { b = append(b, ',') }`, then the next text. */
  lemma {:induction false} JoinNext(texts: seq<string>, t: string)
    ensures Separators.Join(texts + [t]) == Separators.Join(texts) + (if texts == [] then "" else ",") + t
    decreases |texts|
  {
    if |texts| > 1 {
      assert (texts + [t])[1..] == texts[1..] + [t];
      JoinNext(texts[1..], t);
    } else if |texts| == 1 {
      assert (texts + [t])[1..] == [t];
    }
  }

  /** The same in a buffer that holds `open` and the texts so far. */
  lemma NextText(before: string, open: string, texts: seq<string>, t: string)
    ensures
      var b := before + (open + Separators.Join(texts));
      (if texts == [] then b else b + ",") + t == before + (open + Separators.Join(texts + [t]))
  {
    JoinNext(texts, t);
  }

  lemma LastText(before: string, open: string, texts: seq<string>, close: string)
    ensures before + (open + Separators.Join(texts)) + close == before + (open + Separators.Join(texts) + close)
  {
  }

  function Preceded<T>(done: seq<T>, rest: Option<seq<T>>): Option<seq<T>> {
    match rest
    case None => None
    case Some(more) => Some(done + more)
  }

  lemma PrecededNone<T>(rest: Option<seq<T>>)
    ensures Preceded([], rest) == rest
  {
    if rest.Some? {
      assert [] + rest.value == rest.value;
    }
  }

  lemma PrecededOne<T>(done: seq<T>, x: T, rest: Option<seq<T>>)
    ensures rest.Some? ==> Preceded(done, Some([x] + rest.value)) == Preceded(done + [x], rest)
  {
    if rest.Some? {
      assert done + ([x] + rest.value) == done + [x] + rest.value;
    }
  }

  // ---- values -------------------------------------------------------------

  /** Everything but messages. */
  method AppendScalar(tx: Text, schema: Schema, kind: Kind, v: Value, b: string) returns (r: Option<string>)
    requires tx.Ok(schema) && Fits(kind, v) && !kind.KMessage?
    ensures r == tx.Appended(b, EncScalar(tx.cx, kind, v))
  {
    match kind
    case KString => r := Some(b + tx.quote(v.s));
    case KBool => r := Some(b + if v.b then "true" else "false");
    case KInt(_, _) => r := Some(b + tx.cx.digits(v.i));
    case KEnumNumber => r := Some(b + tx.cx.digits(v.i));
    case KIntString =>
      InQuotes(tx, b, tx.cx.digits(v.i));
      r := Some(b + "\"" + tx.cx.digits(v.i) + "\"");
    case KEnum(names) =>
      if v.i < 0 || v.i >= |names| {
        return None;
      }
      r := Some(b + tx.quote(names[v.i]));
    case KBytes => r := Some(b + if v.VNil? then "null" else tx.quote(tx.cx.encode(0, v.bytes)));
    case KBytesEncoded(scheme) =>
      var bytes := if v.VNil? then [] else v.bytes;
      InQuotes(tx, b, tx.cx.encode(scheme, bytes));
      r := Some(b + "\"" + tx.cx.encode(scheme, bytes) + "\"");
    case KRaw => r := if v.VNil? then Some(b + "null") else if v.VRaw? then Some(b + tx.Print(v.doc)) else None;
  }

  lemma InQuotes(tx: Text, b: string, s: string)
    requires tx.Plain(s)
    ensures b + "\"" + s + "\"" == b + tx.quote(s)
  {
  }

  method AppendValue(tx: Text, schema: Schema, kind: Kind, v: Value, b: string) returns (r: Option<string>)
    requires tx.Ok(schema)
    ensures r == tx.Appended(b, EncVal(tx.cx, schema, kind, v))
    decreases 1, 0, v, 3
  {
    if !Fits(kind, v) {
      return None;
    }
    if !kind.KMessage? {
      r := AppendScalar(tx, schema, kind, v, b);
    } else if v.VNil? {
      r := Some(b + "null");
    } else {
      r := AppendMessage(tx, schema, kind.message, v, b, false);
    }
  }

  method AppendItems(tx: Text, schema: Schema, kind: Kind, items: seq<Value>, before: string) returns (r: Option<string>)
    requires tx.Ok(schema)
    ensures
      var js := EncItems(tx.cx, schema, kind, items);
      r == tx.Appended(before, if js.None? then None else Some(JArr(js.value)))
    decreases 1, 0, items, 4
  {
    var b := before + "[";
    ghost var all, done := EncItems(tx.cx, schema, kind, items), [];
    assert items[0..] == items;
    PrecededNone(all);
    for i := 0 to |items|
      invariant |done| == i && b == before + ("[" + Separators.Join(tx.Items(done)))
      invariant all == Preceded(done, EncItems(tx.cx, schema, kind, items[i..]))
    {
      ItemsOn(tx.cx, schema, kind, items, i, done);
      r := AppendItem(tx, schema, kind, items[i], i == 0, b, before, done);
      if r.None? {
        return;
      }
      b := r.value;
      done := done + [EncVal(tx.cx, schema, kind, items[i]).value];
    }
    assert items[|items|..] == [];
    CloseArray(tx, before, done);
    r := Some(b + "]");
  }

  /** One turn of the loop: `done` has been written before. */
  method AppendItem(tx: Text, schema: Schema, kind: Kind, v: Value, first: bool, b: string, ghost before: string, ghost done: seq<Json>)
    returns (r: Option<string>)
    requires tx.Ok(schema) && b == before + ("[" + Separators.Join(tx.Items(done))) && (first <==> done == [])
    ensures
      var j := EncVal(tx.cx, schema, kind, v);
      r == if j.None? then None else Some(before + ("[" + Separators.Join(tx.Items(done + [j.value]))))
    decreases 1, 0, v, 4
  {
    r := AppendValue(tx, schema, kind, v, if first then b else b + ",");
    if r.Some? {
      NextItem(tx, before, done, EncVal(tx.cx, schema, kind, v).value);
    }
  }

  lemma CloseArray(tx: Text, before: string, done: seq<Json>)
    ensures before + ("[" + Separators.Join(tx.Items(done))) + "]" == before + tx.Print(JArr(done)) && done + [] == done
  {
    LastText(before, "[", tx.Items(done), "]");
  }

  lemma ItemsOn(cx: Codec, schema: Schema, kind: Kind, items: seq<Value>, i: nat, done: seq<Json>)
    requires i < |items|
    ensures
      var j := EncVal(cx, schema, kind, items[i]);
      Preceded(done, EncItems(cx, schema, kind, items[i..]))
      == if j.None? then None else Preceded(done + [j.value], EncItems(cx, schema, kind, items[i + 1..]))
  {
    assert items[i..][0] == items[i] && items[i..][1..] == items[i + 1..];
    var j := EncVal(cx, schema, kind, items[i]);
    if j.Some? {
      PrecededOne(done, j.value, EncItems(cx, schema, kind, items[i + 1..]));
    }
  }

  lemma NextItem(tx: Text, before: string, done: seq<Json>, j: Json)
    ensures
      var b := before + ("[" + Separators.Join(tx.Items(done)));
      (if done == [] then b else b + ",") + tx.Print(j) == before + ("[" + Separators.Join(tx.Items(done + [j])))
  {
    NextText(before, "[", tx.Items(done), tx.Print(j));
    assert tx.Items(done + [j]) == tx.Items(done) + [tx.Print(j)];
  }

  method AppendEntries(tx: Text, schema: Schema, kind: Kind, v: Value, before: string) returns (r: Option<string>)
    requires tx.Ok(schema) && v.VMap?
    ensures
      var ms := EncEntries(tx.cx, schema, kind, tx.cx.order(v.entries.Keys), v);
      r == tx.Appended(before, if ms.None? then None else Some(JObj(ms.value)))
    decreases 1, 0, v, 4
  {
    var keys := tx.cx.order(v.entries.Keys);
    assert (set k <- keys) == v.entries.Keys;
    assert forall k <- keys :: k in (set k <- keys);
    r := AppendKeys(tx, schema, kind, keys, v, before);
  }

  method AppendKeys(tx: Text, schema: Schema, kind: Kind, keys: seq<string>, v: Value, before: string) returns (r: Option<string>)
    requires tx.Ok(schema) && v.VMap? && forall k <- keys :: k in v.entries
    ensures
      var ms := EncEntries(tx.cx, schema, kind, keys, v);
      r == tx.Appended(before, if ms.None? then None else Some(JObj(ms.value)))
    decreases 1, 0, v, 3
  {
    var b := before + "{";
    ghost var all, done := EncEntries(tx.cx, schema, kind, keys, v), [];
    assert keys[0..] == keys;
    PrecededNone(all);
    for i := 0 to |keys|
      invariant |done| == i && b == before + ("{" + Separators.Join(tx.Members(done)))
      invariant all == Preceded(done, EncEntries(tx.cx, schema, kind, keys[i..], v))
    {
      EntriesOn(tx.cx, schema, kind, keys, v, i, done);
      r := AppendEntry(tx, schema, kind, keys[i], v.entries[keys[i]], i == 0, b, before, done);
      if r.None? {
        return;
      }
      b := r.value;
      done := done + [Member(keys[i], EncVal(tx.cx, schema, kind, v.entries[keys[i]]).value)];
    }
    assert keys[|keys|..] == [];
    CloseObject(tx, before, done);
    r := Some(b + "}");
  }

  method AppendEntry(tx: Text, schema: Schema, kind: Kind, key: string, v: Value, first: bool, b: string,
                     ghost before: string, ghost done: seq<Member>)
    returns (r: Option<string>)
    requires tx.Ok(schema) && b == before + ("{" + Separators.Join(tx.Members(done))) && (first <==> done == [])
    ensures
      var j := EncVal(tx.cx, schema, kind, v);
      r == if j.None? then None else Some(before + ("{" + Separators.Join(tx.Members(done + [Member(key, j.value)]))))
    decreases 1, 0, v, 4
  {
    var start := if first then b else b + ",";
    r := AppendValue(tx, schema, kind, v, start + tx.quote(key) + ":");
    if r.Some? {
      ghost var m := Member(key, EncVal(tx.cx, schema, kind, v).value);
      KeyAndValue(tx, start, m);
      NextMember(tx, before, done, m);
    }
  }

  lemma CloseObject(tx: Text, before: string, done: seq<Member>)
    ensures before + ("{" + Separators.Join(tx.Members(done))) + "}" == before + tx.Print(JObj(done)) && done + [] == done
  {
    LastText(before, "{", tx.Members(done), "}");
  }

  lemma EntriesOn(cx: Codec, schema: Schema, kind: Kind, keys: seq<string>, v: Value, i: nat, done: seq<Member>)
    requires i < |keys| && v.VMap? && keys[i] in v.entries
    ensures
      var j := EncVal(cx, schema, kind, v.entries[keys[i]]);
      Preceded(done, EncEntries(cx, schema, kind, keys[i..], v))
      == if j.None? then None else Preceded(done + [Member(keys[i], j.value)], EncEntries(cx, schema, kind, keys[i + 1..], v))
  {
    assert keys[i..][0] == keys[i] && keys[i..][1..] == keys[i + 1..];
    var j := EncVal(cx, schema, kind, v.entries[keys[i]]);
    if j.Some? {
      PrecededOne(done, Member(keys[i], j.value), EncEntries(cx, schema, kind, keys[i + 1..], v));
    }
  }

  lemma NextMember(tx: Text, before: string, done: seq<Member>, m: Member)
    ensures
      var b := before + ("{" + Separators.Join(tx.Members(done)));
      (if done == [] then b else b + ",") + tx.Member(m) == before + ("{" + Separators.Join(tx.Members(done + [m])))
  {
    NextText(before, "{", tx.Members(done), tx.Member(m));
    assert tx.Members(done + [m]) == tx.Members(done) + [tx.Member(m)];
  }

  lemma KeyAndValue(tx: Text, b: string, m: Member)
    ensures b + tx.quote(m.key) + ":" + tx.Print(m.val) == b + tx.Member(m)
  {
  }

  method AppendCase(tx: Text, schema: Schema, disc: string, vs: seq<Variant>, v: Value, before: string) returns (r: Option<string>)
    requires tx.Ok(schema) && tx.PlainShape(Oneof(disc, vs)) && Stores(Oneof(disc, vs), v) && v.VCase?
    ensures r == tx.Appended(before, EncCase(tx.cx, schema, disc, FindVariant(vs, v.name).value, v))
    decreases 1, 0, v, 3
  {
    var variant := FindVariant(vs, v.name).value;
    FindVariantIn(vs, v.name);
    ghost var tag := Member(disc, JStr(variant.tag));
    TagText(tx, disc, variant.tag);
    var b := before + ("{\"" + disc + "\":\"" + variant.tag + "\"");
    if variant.kind.KMessage? && v.payload.VNil? {
      OneText(tx, before, tag);
      return Some(b + "}");
    }
    r := AppendValue(tx, schema, variant.kind, v.payload, b + (",\"" + variant.name + "\":"));
    if r.None? {
      return;
    }
    TwoTexts(tx, before, tag, Member(variant.name, EncVal(tx.cx, schema, variant.kind, v.payload).value));
    r := Some(r.value + "}");
  }

  lemma TagText(tx: Text, disc: string, tag: string)
    requires tx.Plain(disc) && tx.Plain(tag)
    ensures "{\"" + disc + "\":\"" + tag + "\"" == "{" + tx.Member(Member(disc, JStr(tag)))
  {
    assert "{\"" == "{" + "\"" && "\":\"" == "\"" + ":" + "\"";
  }

  lemma OneText(tx: Text, before: string, m: Member)
    ensures before + ("{" + tx.Member(m)) + "}" == before + tx.Print(JObj([m]))
  {
    assert tx.Members([m]) == [tx.Member(m)];
  }

  lemma SecondText(tx: Text, n: Member)
    requires tx.Plain(n.key)
    ensures (",\"" + n.key + "\":") + tx.Print(n.val) == "," + tx.Member(n)
  {
    assert ",\"" == "," + "\"" && "\":" == "\"" + ":";
  }

  lemma TwoTexts(tx: Text, before: string, m: Member, n: Member)
    requires tx.Plain(n.key)
    ensures before + ("{" + tx.Member(m)) + (",\"" + n.key + "\":") + tx.Print(n.val) + "}" == before + tx.Print(JObj([m, n]))
  {
    SecondText(tx, n);
    NextText(before, "{", [tx.Member(m)], tx.Member(n));
    LastText(before, "{", tx.Members([m, n]), "}");
    assert tx.Members([m, n]) == [tx.Member(m)] + [tx.Member(n)];
  }

  // ---- fields -------------------------------------------------------------

  /** `fieldBody`, for a member that is written. */
  method AppendBody(tx: Text, schema: Schema, owner: string, s: Shape, v: Value, b: string, zero: bool) returns (r: Option<string>)
    requires tx.Ok(schema) && schema.ShapeOk(owner, s) && tx.PlainShape(s) && Stores(s, v) && Present(s, v)
    requires zero ==> v == ZeroField(s) && owner in schema.rank
    ensures r == tx.Appended(b, EncBody(tx.cx, schema, owner, s, v))
    decreases Level(zero), RankOf(schema, zero, owner), v, 5
  {
    match s
    case Oneof(disc, variants) =>
      if v.VNil? {
        r := Some(b + "null");
      } else {
        r := AppendCase(tx, schema, disc, variants, v, b);
      }
    case Nullable(kind, _) =>
      if v.ptr.VNil? {
        r := Some(b + "null");
      } else if kind.KMessage? {
        r := AppendValue(tx, schema, kind, v.ptr, b);
      } else {
        r := AppendValue(tx, schema, kind, v.ptr.target, b);
      }
    case MapOf(kind, _) =>
      if v.VNil? {
        assert tx.Print(JObj([])) == "{}";
        r := Some(b + "{}");
      } else {
        r := AppendEntries(tx, schema, kind, v, b);
      }
    case Repeated(kind, _) =>
      if v.VNil? {
        assert tx.Print(JArr([])) == "[]";
        r := Some(b + "[]");
      } else {
        r := AppendItems(tx, schema, kind, v.items, b);
      }
    case Message(m, _) =>
      if v.VNil? {
        NewIsZero(tx.cx, schema, m);
        r := AppendMessage(tx, schema, m, VMsg(ZeroFields(schema.messages[m])), b, true);
      } else {
        r := AppendMessage(tx, schema, m, v, b, false);
      }
    case Optional(kind) => r := AppendScalar(tx, schema, kind, v.target, b);
    case Plain(kind, emitZero) =>
      if kind.KBytes? && emitZero && v.VNil? {
        EmptyText(tx);
        r := Some(b + "\"\"");
      } else {
        r := AppendScalar(tx, schema, kind, v, b);
      }
  }

  lemma EmptyText(tx: Text)
    requires tx.cx.Ok() && forall scheme, b :: tx.Plain(tx.cx.encode(scheme, b))
    ensures tx.quote("") == "\"\""
  {
    assert tx.cx.encode(0, []) == "" && tx.Plain(tx.cx.encode(0, []));
  }

  lemma NewIsZero(cx: Codec, schema: Schema, m: string)
    requires schema.Ok() && m in schema.messages
    ensures EncMsg(cx, schema, m, VMsg(ZeroFields(schema.messages[m]))) == EncZero(cx, schema, m)
  {
    var fs := schema.messages[m];
    assert fs[0..] == fs;
    EncZeroIsNew(cx, schema, m, fs, 0);
  }

  // ---- messages -----------------------------------------------------------

  function AsMembers(fs: seq<Field>): seq<Separators.Member> {
    seq(|fs|, i requires 0 <= i < |fs| => Separators.Member(fs[i].name, AlwaysWritten(fs[i].shape)))
  }

  /** What the program of the separator compiler finds when it runs on a message. */
  ghost predicate Evaluated(tx: Text, schema: Schema, owner: string, fs: seq<Field>, v: Value, msg: Separators.Message)
    requires v.VMsg?
  {
    && |msg.isSet| == |msg.bodies| <= |fs|
    && forall i :: 0 <= i < |msg.isSet| ==> FieldEvaluated(tx, schema, owner, fs[i], v, msg.isSet[i], msg.bodies[i])
  }

  ghost predicate FieldEvaluated(tx: Text, schema: Schema, owner: string, f: Field, v: Value, isSet: bool, body: Option<string>)
    requires v.VMsg?
  {
    && f.name in v.fields && Stores(f.shape, v.fields[f.name])
    && isSet == Present(f.shape, v.fields[f.name])
    && (isSet ==> body == tx.Appended("", EncBody(tx.cx, schema, owner, f.shape, v.fields[f.name])))
  }

  /** The emitted method on a message that is not nil. */
  method AppendMessage(tx: Text, schema: Schema, name: string, v: Value, b: string, zero: bool) returns (r: Option<string>)
    requires tx.Ok(schema) && v.VMsg? && (zero ==> ZeroMsg(schema, name, v))
    ensures r == tx.Appended(b, EncMsg(tx.cx, schema, name, v))
    decreases Level(zero), RankOf(schema, zero, name), v, 2
  {
    if name !in schema.messages {
      return None;
    }
    var fs := schema.messages[name];
    var msg := Separators.Message([], []);
    for i := 0 to |fs|
      invariant |msg.isSet| == i && Evaluated(tx, schema, name, fs, v, msg)
    {
      var f := fs[i];
      if f.name !in v.fields || !Stores(f.shape, v.fields[f.name]) {
        IllTyped(tx.cx, schema, name, fs, v, i);
        return None;
      }
      if zero {
        ZeroFieldsAt(fs, i);
      }
      var isSet, body := Present(f.shape, v.fields[f.name]), None;
      if isSet {
        body := AppendBody(tx, schema, name, f.shape, v.fields[f.name], "", zero);
      }
      msg := Separators.Message(msg.isSet + [isSet], msg.bodies + [body]);
    }
    var end := Separators.Exec(Separators.Code(AsMembers(fs)), msg, Separators.Running(b, None));
    ProgramPrints(tx, schema, name, v, msg, b);
    r := if end.Running? then Some(end.b) else None;
  }

  lemma {:induction false} IllTyped(cx: Codec, schema: Schema, owner: string, fs: seq<Field>, v: Value, i: nat)
    requires v.VMsg? && i < |fs| && (fs[i].name !in v.fields || !Stores(fs[i].shape, v.fields[fs[i].name]))
    ensures EncFields(cx, schema, owner, fs, v).None?
    decreases i
  {
    if i > 0 {
      IllTyped(cx, schema, owner, fs[1..], v, i - 1);
    }
  }

  /** From member `i` on, the object's members are those of the tree. */
  lemma {:induction false} MembersPrinted(tx: Text, schema: Schema, owner: string, v: Value, msg: Separators.Message, i: nat)
    requires tx.Ok(schema) && owner in schema.messages && v.VMsg? && i <= |schema.messages[owner]|
    requires Evaluated(tx, schema, owner, schema.messages[owner], v, msg) && |msg.isSet| == |schema.messages[owner]|
    ensures
      var fs := schema.messages[owner];
      var members, tree := Separators.Members(AsMembers(fs), msg, i), EncFields(tx.cx, schema, owner, fs[i..], v);
      if tree.None? then !Separators.AllWritten(members)
      else Separators.AllWritten(members) && Separators.Texts(members) == tx.Members(tree.value)
    decreases |schema.messages[owner]| - i
  {
    var fs := schema.messages[owner];
    if i < |fs| {
      var f := fs[i];
      assert fs[i..][0] == f && fs[i..][1..] == fs[i + 1..] && f in fs;
      assert FieldEvaluated(tx, schema, owner, f, v, msg.isSet[i], msg.bodies[i]);
      MembersPrinted(tx, schema, owner, v, msg, i + 1);
      var x := v.fields[f.name];
      var rest := EncFields(tx.cx, schema, owner, fs[i + 1..], v);
      if Present(f.shape, x) {
        OnePrinted(tx, f.name, EncBody(tx.cx, schema, owner, f.shape, x), rest,
                   msg.bodies[i], Separators.Members(AsMembers(fs), msg, i + 1));
      }
    }
  }

  /** One member before the others. */
  lemma OnePrinted(tx: Text, name: string, j: Option<Json>, rest: Option<seq<Member>>, body: Option<string>, more: seq<Option<string>>)
    requires tx.Plain(name) && body == tx.Appended("", j)
    requires if rest.None? then !Separators.AllWritten(more) else Separators.AllWritten(more) && Separators.Texts(more) == tx.Members(rest.value)
    ensures
      var members := [if body.Some? then Some(Separators.Quoted(name) + body.value) else None] + more;
      if j.None? || rest.None? then !Separators.AllWritten(members)
      else Separators.AllWritten(members) && Separators.Texts(members) == tx.Members([Member(name, j.value)] + rest.value)
  {
    var first := if body.Some? then Some(Separators.Quoted(name) + body.value) else None;
    var members := [first] + more;
    assert members[0] == first && members[1..] == more;
    if j.None? {
      assert members[0].None?;
    } else if rest.None? {
      var m :| m in more && m.None?;
      assert m in members;
    } else {
      var ms := [Member(name, j.value)] + rest.value;
      assert tx.Members(ms) == [tx.Member(ms[0])] + tx.Members(rest.value);
      assert "\"" + name + "\":" == "\"" + name + "\"" + ":";
      assert Separators.Quoted(name) + tx.Print(j.value) == tx.Member(ms[0]);
      assert "" + tx.Print(j.value) == tx.Print(j.value);
    }
  }

  /** Running the program appends the printed tree, or fails where there is none. */
  lemma ProgramPrints(tx: Text, schema: Schema, name: string, v: Value, msg: Separators.Message, b: string)
    requires tx.Ok(schema) && name in schema.messages && v.VMsg?
    requires Evaluated(tx, schema, name, schema.messages[name], v, msg) && |msg.isSet| == |schema.messages[name]|
    ensures
      var end := Separators.Exec(Separators.Code(AsMembers(schema.messages[name])), msg, Separators.Running(b, None));
      tx.Appended(b, EncMsg(tx.cx, schema, name, v)) == if end.Running? then Some(end.b) else None
  {
    var fs := schema.messages[name];
    Separators.CodeWritesObject(AsMembers(fs), msg, b);
    MembersPrinted(tx, schema, name, v, msg, 0);
    assert fs[0..] == fs;
  }
}
