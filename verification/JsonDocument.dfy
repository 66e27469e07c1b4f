/**
 Documents that are the same up to the order of their members, at every depth: in
 message objects, oneof objects and map objects, but not inside raw JSON, which is
 kept as it came. The decoder does not tell them apart.
 */
module JsonDocument {

  import opened Wrappers
  import opened JsonModel
  import opened JsonDecode
  import opened JsonOrder

  ghost predicate Reordered(ms: seq<Member>, ms': seq<Member>) {
    multiset(ms) == multiset(ms')
  }

  /** The same value of a kind. Only messages have members to reorder. */
  ghost predicate SameVal(schema: Schema, kind: Kind, j: Json, j': Json)
    decreases j, 1
  {
    j == j' || (kind.KMessage? && SameMsg(schema, kind.message, j, j'))
  }

  /** Members changed one by one into the same ones, and then reordered. */
  ghost predicate SameMsg(schema: Schema, name: string, j: Json, j': Json)
    decreases j, 0
  {
    && name in schema.messages && j.JObj? && j'.JObj?
    && exists mid :: SameMembers(schema, schema.messages[name], j.members, mid) && Reordered(mid, j'.members)
  }

  ghost predicate SameMembers(schema: Schema, fs: seq<Field>, ms: seq<Member>, ms': seq<Member>)
    decreases ms
  {
    |ms| == |ms'| && forall i :: 0 <= i < |ms| ==> SameMember(schema, fs, ms[i], ms'[i])
  }

  /** A key the message does not know is skipped with whatever is under it. */
  ghost predicate SameMember(schema: Schema, fs: seq<Field>, m: Member, m': Member)
    decreases m
  {
    m.key == m'.key && (FindField(fs, m.key).Some? ==> SameField(schema, FindField(fs, m.key).value.shape, m.val, m'.val))
  }

  ghost predicate SameField(schema: Schema, s: Shape, j: Json, j': Json)
    decreases j, 2
  {
    j == j'
    || match s
       case Oneof(disc, vs) =>
         j.JObj? && j'.JObj? && exists mid :: SameCaseMembers(schema, disc, vs, j.members, mid) && Reordered(mid, j'.members)
       case MapOf(kind, _) =>
         && j.JObj? && j'.JObj?
         && exists mid :: SameEntries(schema, kind, j.members, mid) && Reordered(mid, j'.members)
                          && (DistinctKeys(mid) || mid == j'.members)
       case Repeated(kind, _) =>
         && j.JArr? && j'.JArr? && |j.items| == |j'.items|
         && forall i :: 0 <= i < |j.items| ==> SameVal(schema, kind, j.items[i], j'.items[i])
       case Nullable(kind, _) => SameVal(schema, kind, j, j')
       case Message(m, _) => SameMsg(schema, m, j, j')
       case Optional(_) => false
       case Plain(_, _) => false
  }

  ghost predicate SameCaseMembers(schema: Schema, disc: string, vs: seq<Variant>, ms: seq<Member>, ms': seq<Member>)
    decreases ms
  {
    |ms| == |ms'| && forall i :: 0 <= i < |ms| ==> SameCaseMember(schema, disc, vs, ms[i], ms'[i])
  }

  ghost predicate SameCaseMember(schema: Schema, disc: string, vs: seq<Variant>, m: Member, m': Member)
    decreases m
  {
    && m.key == m'.key
    && (if m.key == disc then m.val == m'.val
        else FindVariant(vs, m.key).Some? ==> SameVal(schema, FindVariant(vs, m.key).value.kind, m.val, m'.val))
  }

  ghost predicate SameEntries(schema: Schema, kind: Kind, ms: seq<Member>, ms': seq<Member>)
    decreases ms
  {
    |ms| == |ms'| && forall i :: 0 <= i < |ms| ==> SameEntry(schema, kind, ms[i], ms'[i])
  }

  ghost predicate SameEntry(schema: Schema, kind: Kind, m: Member, m': Member)
    decreases m
  {
    m.key == m'.key && SameVal(schema, kind, m.val, m'.val)
  }

  // ---- the decoder --------------------------------------------------------

  lemma {:induction false} SameValDecodes(cx: Codec, schema: Schema, kind: Kind, strict: bool, inOneof: bool, j: Json, j': Json)
    requires SameVal(schema, kind, j, j')
    ensures DecVal(cx, schema, kind, strict, inOneof, j) == DecVal(cx, schema, kind, strict, inOneof, j')
    ensures j.JNull? <==> j'.JNull?
    decreases j, 1
  {
    if j != j' {
      SameMsgDecodes(cx, schema, kind.message, j, j');
    }
  }

  /** Documents that are the same up to member order decode to the same message, or
      are given up on alike. */
  lemma {:induction false} SameMsgDecodes(cx: Codec, schema: Schema, name: string, j: Json, j': Json)
    requires SameMsg(schema, name, j, j')
    ensures DecMsg(cx, schema, name, j) == DecMsg(cx, schema, name, j')
    decreases j, 0
  {
    var fs := schema.messages[name];
    var mid :| SameMembers(schema, fs, j.members, mid) && Reordered(mid, j'.members);
    SameMembersDecode(cx, schema, fs, j.members, mid, {}, ZeroFields(fs));
    KeyOrderIsIrrelevant(cx, schema, fs, mid, j'.members, {}, ZeroFields(fs));
  }

  lemma {:induction false} SameMembersDecode(
    cx: Codec, schema: Schema, fs: seq<Field>, ms: seq<Member>, ms': seq<Member>, seen: set<string>, acc: map<string, Value>)
    requires SameMembers(schema, fs, ms, ms')
    ensures DecMembers(cx, schema, fs, ms, seen, acc) == DecMembers(cx, schema, fs, ms', seen, acc)
    decreases ms
  {
    if ms != [] {
      assert SameMember(schema, fs, ms[0], ms'[0]);
      assert SameMembers(schema, fs, ms[1..], ms'[1..]);
      var f := FindField(fs, ms[0].key);
      if f.Some? {
        SameMemberDecodes(cx, schema, f.value.shape, ms[0], ms'[0]);
        var v := DecMember(cx, schema, f.value.shape, ms[0]);
        if v.Some? {
          SameMembersDecode(cx, schema, fs, ms[1..], ms'[1..], seen + {f.value.name}, acc[f.value.name := v.value]);
        }
      } else {
        SameMembersDecode(cx, schema, fs, ms[1..], ms'[1..], seen, acc);
      }
    }
  }

  lemma {:induction false} SameMemberDecodes(cx: Codec, schema: Schema, s: Shape, m: Member, m': Member)
    requires SameField(schema, s, m.val, m'.val)
    ensures DecMember(cx, schema, s, m) == DecMember(cx, schema, s, m')
    decreases m
  {
    SameFieldDecodes(cx, schema, s, m.val, m'.val);
  }

  lemma {:induction false} SameFieldDecodes(cx: Codec, schema: Schema, s: Shape, j: Json, j': Json)
    requires SameField(schema, s, j, j')
    ensures DecField(cx, schema, s, j) == DecField(cx, schema, s, j')
    decreases j, 2
  {
    if j != j' {
      match s
      case Oneof(disc, vs) =>
        var mid :| SameCaseMembers(schema, disc, vs, j.members, mid) && Reordered(mid, j'.members);
        SameCaseDecodes(cx, schema, disc, vs, j.members, mid, {}, "", map[]);
        CaseKeyOrderIsIrrelevant(cx, schema, disc, vs, mid, j'.members, {}, "", map[]);
      case MapOf(kind, _) =>
        var mid :| SameEntries(schema, kind, j.members, mid) && Reordered(mid, j'.members)
                   && (DistinctKeys(mid) || mid == j'.members);
        SameEntriesDecode(cx, schema, kind, j.members, mid, map[]);
        if DistinctKeys(mid) {
          DistinctKeysOneValue(cx, schema, kind, mid);
          EntryOrderIsIrrelevant(cx, schema, kind, mid, j'.members, map[]);
        }
      case Repeated(kind, _) => SameItemsDecode(cx, schema, kind, j.items, j'.items);
      case Nullable(kind, _) => SameValDecodes(cx, schema, kind, true, false, j, j');
      case Message(m, _) => SameMsgDecodes(cx, schema, m, j, j');
    }
  }

  lemma {:induction false} SameItemsDecode(cx: Codec, schema: Schema, kind: Kind, js: seq<Json>, js': seq<Json>)
    requires |js| == |js'| && forall i :: 0 <= i < |js| ==> SameVal(schema, kind, js[i], js'[i])
    ensures DecItems(cx, schema, kind, js) == DecItems(cx, schema, kind, js')
    decreases js
  {
    if js != [] {
      SameValDecodes(cx, schema, kind, true, false, js[0], js'[0]);
      assert forall i :: 0 <= i < |js[1..]| ==> js[1..][i] == js[i + 1] && js'[1..][i] == js'[i + 1];
      SameItemsDecode(cx, schema, kind, js[1..], js'[1..]);
    }
  }

  lemma {:induction false} SameEntriesDecode(
    cx: Codec, schema: Schema, kind: Kind, ms: seq<Member>, ms': seq<Member>, acc: map<string, Value>)
    requires SameEntries(schema, kind, ms, ms')
    ensures DecEntries(cx, schema, kind, ms, acc) == DecEntries(cx, schema, kind, ms', acc)
    decreases ms
  {
    if ms != [] {
      assert SameEntry(schema, kind, ms[0], ms'[0]);
      assert SameEntries(schema, kind, ms[1..], ms'[1..]);
      SameEntryDecodes(cx, schema, kind, ms[0], ms'[0]);
      var v := DecEntry(cx, schema, kind, ms[0]);
      if v.Some? {
        SameEntriesDecode(cx, schema, kind, ms[1..], ms'[1..], acc[ms[0].key := v.value]);
      }
    }
  }

  lemma {:induction false} SameEntryDecodes(cx: Codec, schema: Schema, kind: Kind, m: Member, m': Member)
    requires SameVal(schema, kind, m.val, m'.val)
    ensures DecEntry(cx, schema, kind, m) == DecEntry(cx, schema, kind, m')
    decreases m
  {
    SameValDecodes(cx, schema, kind, true, false, m.val, m'.val);
  }

  lemma {:induction false} SameCaseDecodes(
    cx: Codec, schema: Schema, disc: string, vs: seq<Variant>, ms: seq<Member>, ms': seq<Member>,
    seen: set<string>, tag: string, payloads: map<string, Value>)
    requires SameCaseMembers(schema, disc, vs, ms, ms')
    ensures DecCase(cx, schema, disc, vs, ms, seen, tag, payloads) == DecCase(cx, schema, disc, vs, ms', seen, tag, payloads)
    decreases ms
  {
    if ms != [] {
      assert SameCaseMember(schema, disc, vs, ms[0], ms'[0]);
      assert SameCaseMembers(schema, disc, vs, ms[1..], ms'[1..]);
      SameCaseStep(cx, schema, disc, vs, ms[0], ms'[0], (seen, tag, payloads));
      CaseFirst(cx, schema, disc, vs, ms, seen, tag, payloads);
      CaseFirst(cx, schema, disc, vs, ms', seen, tag, payloads);
      var r := CaseStep(cx, schema, disc, vs)(ms[0], (seen, tag, payloads));
      if r.Some? {
        SameCaseDecodes(cx, schema, disc, vs, ms[1..], ms'[1..], r.value.0, r.value.1, r.value.2);
      }
    }
  }

  lemma {:induction false} SameCaseStep(cx: Codec, schema: Schema, disc: string, vs: seq<Variant>, m: Member, m': Member, s: CaseState)
    requires SameCaseMember(schema, disc, vs, m, m')
    ensures CaseStep(cx, schema, disc, vs)(m, s) == CaseStep(cx, schema, disc, vs)(m', s)
    decreases m
  {
    if m.val == m'.val {
      assert m == m';
    } else if FindVariant(vs, m.key).Some? {
      var kind := FindVariant(vs, m.key).value.kind;
      SameValDecodes(cx, schema, kind, true, true, m.val, m'.val);
      assert DecPayload(cx, schema, kind, m) == DecPayload(cx, schema, kind, m');
    }
  }

  // ---- what counts as the same --------------------------------------------

  /** Any reordering of one message object is the same document. */
  lemma ReorderedIsSame(schema: Schema, name: string, ms: seq<Member>, ms': seq<Member>)
    requires name in schema.messages && Reordered(ms, ms')
    ensures SameMsg(schema, name, JObj(ms), JObj(ms'))
  {
    var fs := schema.messages[name];
    forall i | 0 <= i < |ms|
      ensures SameMember(schema, fs, ms[i], ms[i])
    {
    }
    assert SameMembers(schema, fs, ms, ms);
  }

  // ---- a repeated key, however deep ---------------------------------------

  /** Some message or oneof object of the document, reached through fields that are
      read, has a key it knows twice. */
  ghost predicate Repeats(schema: Schema, name: string, j: Json)
    decreases j, 0
  {
    && name in schema.messages && j.JObj?
    && (RepeatedField(schema.messages[name], j.members) || exists m <- j.members :: MemberRepeats(schema, schema.messages[name], m))
  }

  ghost predicate RepeatedField(fs: seq<Field>, ms: seq<Member>) {
    exists i, k :: 0 <= i < k < |ms| && ms[i].key == ms[k].key && FindField(fs, ms[i].key).Some?
  }

  ghost predicate MemberRepeats(schema: Schema, fs: seq<Field>, m: Member)
    decreases m
  {
    FindField(fs, m.key).Some? && FieldRepeats(schema, FindField(fs, m.key).value.shape, m.val)
  }

  ghost predicate ValRepeats(schema: Schema, kind: Kind, j: Json)
    decreases j, 1
  {
    kind.KMessage? && Repeats(schema, kind.message, j)
  }

  ghost predicate FieldRepeats(schema: Schema, s: Shape, j: Json)
    decreases j, 2
  {
    match s
    case Oneof(disc, vs) => j.JObj? && (RepeatedCase(disc, vs, j.members) || exists m <- j.members :: PayloadRepeats(schema, disc, vs, m))
    case MapOf(kind, _) => j.JObj? && exists m <- j.members :: EntryRepeats(schema, kind, m)
    case Repeated(kind, _) => j.JArr? && exists item <- j.items :: ValRepeats(schema, kind, item)
    case Nullable(kind, _) => ValRepeats(schema, kind, j)
    case Message(m, _) => Repeats(schema, m, j)
    case Optional(_) => false
    case Plain(_, _) => false
  }

  ghost predicate RepeatedCase(disc: string, vs: seq<Variant>, ms: seq<Member>) {
    exists i, k :: 0 <= i < k < |ms| && ms[i].key == ms[k].key && CaseKey(disc, vs, ms[i].key)
  }

  ghost predicate PayloadRepeats(schema: Schema, disc: string, vs: seq<Variant>, m: Member)
    decreases m
  {
    m.key != disc && FindVariant(vs, m.key).Some? && ValRepeats(schema, FindVariant(vs, m.key).value.kind, m.val)
  }

  ghost predicate EntryRepeats(schema: Schema, kind: Kind, m: Member)
    decreases m
  {
    ValRepeats(schema, kind, m.val)
  }

  /** The decoder gives up on every document with a repeated key. */
  lemma {:induction false} RepeatFails(cx: Codec, schema: Schema, name: string, j: Json)
    requires Repeats(schema, name, j)
    ensures DecMsg(cx, schema, name, j) == None
    decreases j, 0
  {
    var fs, ms := schema.messages[name], j.members;
    if RepeatedField(fs, ms) {
      var i, k :| 0 <= i < k < |ms| && ms[i].key == ms[k].key && FindField(fs, ms[i].key).Some?;
      RepeatedKeyFails(cx, schema, fs, ms, i, k, {}, ZeroFields(fs));
    } else {
      var m :| m in ms && MemberRepeats(schema, fs, m);
      MemberRepeatFails(cx, schema, fs, m);
      BadMemberFails(cx, schema, fs, ms, m, {}, ZeroFields(fs));
    }
  }

  lemma {:induction false} MemberRepeatFails(cx: Codec, schema: Schema, fs: seq<Field>, m: Member)
    requires MemberRepeats(schema, fs, m)
    ensures DecMember(cx, schema, FindField(fs, m.key).value.shape, m) == None
    decreases m
  {
    FieldRepeatFails(cx, schema, FindField(fs, m.key).value.shape, m.val);
  }

  lemma {:induction false} BadMemberFails(
    cx: Codec, schema: Schema, fs: seq<Field>, ms: seq<Member>, m: Member, seen: set<string>, acc: map<string, Value>)
    requires m in ms && FindField(fs, m.key).Some? && DecMember(cx, schema, FindField(fs, m.key).value.shape, m) == None
    ensures DecMembers(cx, schema, fs, ms, seen, acc) == None
    decreases |ms|
  {
    var f := FindField(fs, ms[0].key);
    if ms[0] != m {
      if f.None? {
        BadMemberFails(cx, schema, fs, ms[1..], m, seen, acc);
      } else {
        var v := DecMember(cx, schema, f.value.shape, ms[0]);
        if v.Some? {
          BadMemberFails(cx, schema, fs, ms[1..], m, seen + {f.value.name}, acc[f.value.name := v.value]);
        }
      }
    }
  }

  lemma {:induction false} FieldRepeatFails(cx: Codec, schema: Schema, s: Shape, j: Json)
    requires FieldRepeats(schema, s, j)
    ensures DecField(cx, schema, s, j) == None
    decreases j, 2
  {
    match s
    case Oneof(disc, vs) => CaseRepeatFails(cx, schema, disc, vs, j);
    case MapOf(kind, _) =>
      var m :| m in j.members && EntryRepeats(schema, kind, m);
      EntryRepeatFails(cx, schema, kind, m);
      BadEntryFails(cx, schema, kind, j.members, m, map[]);
    case Repeated(kind, _) =>
      var item :| item in j.items && ValRepeats(schema, kind, item);
      RepeatFails(cx, schema, kind.message, item);
      BadItemFails(cx, schema, kind, j.items, item);
    case Nullable(kind, _) => RepeatFails(cx, schema, kind.message, j);
    case Message(m, _) => RepeatFails(cx, schema, m, j);
  }

  lemma {:induction false} CaseRepeatFails(cx: Codec, schema: Schema, disc: string, vs: seq<Variant>, j: Json)
    requires FieldRepeats(schema, Oneof(disc, vs), j)
    ensures DecCase(cx, schema, disc, vs, j.members, {}, "", map[]) == None
    decreases j, 1
  {
    var ms := j.members;
    if RepeatedCase(disc, vs, ms) {
      var i, k :| 0 <= i < k < |ms| && ms[i].key == ms[k].key && CaseKey(disc, vs, ms[i].key);
      RepeatedCaseKeyFails(cx, schema, disc, vs, ms, i, k, {}, "", map[]);
    } else {
      var m :| m in ms && PayloadRepeats(schema, disc, vs, m);
      PayloadRepeatFails(cx, schema, disc, vs, m);
      BadPayloadFails(cx, schema, disc, vs, ms, m, {}, "", map[]);
    }
  }

  lemma {:induction false} PayloadRepeatFails(cx: Codec, schema: Schema, disc: string, vs: seq<Variant>, m: Member)
    requires PayloadRepeats(schema, disc, vs, m)
    ensures !m.val.JNull? && DecPayload(cx, schema, FindVariant(vs, m.key).value.kind, m) == None
    decreases m
  {
    RepeatFails(cx, schema, FindVariant(vs, m.key).value.kind.message, m.val);
  }

  lemma {:induction false} BadPayloadFails(
    cx: Codec, schema: Schema, disc: string, vs: seq<Variant>, ms: seq<Member>, m: Member,
    seen: set<string>, tag: string, payloads: map<string, Value>)
    requires m in ms && m.key != disc && FindVariant(vs, m.key).Some? && !m.val.JNull?
    requires DecPayload(cx, schema, FindVariant(vs, m.key).value.kind, m) == None
    ensures DecCase(cx, schema, disc, vs, ms, seen, tag, payloads) == None
    decreases |ms|
  {
    CaseFirst(cx, schema, disc, vs, ms, seen, tag, payloads);
    if ms[0] != m {
      var r := CaseStep(cx, schema, disc, vs)(ms[0], (seen, tag, payloads));
      if r.Some? {
        BadPayloadFails(cx, schema, disc, vs, ms[1..], m, r.value.0, r.value.1, r.value.2);
      }
    }
  }

  lemma {:induction false} EntryRepeatFails(cx: Codec, schema: Schema, kind: Kind, m: Member)
    requires EntryRepeats(schema, kind, m)
    ensures DecEntry(cx, schema, kind, m) == None
    decreases m
  {
    RepeatFails(cx, schema, kind.message, m.val);
    assert DecElem(cx, schema, kind, m.val) == None;
  }

  lemma {:induction false} BadEntryFails(cx: Codec, schema: Schema, kind: Kind, ms: seq<Member>, m: Member, acc: map<string, Value>)
    requires m in ms && DecEntry(cx, schema, kind, m) == None
    ensures DecEntries(cx, schema, kind, ms, acc) == None
    decreases |ms|
  {
    var v := DecEntry(cx, schema, kind, ms[0]);
    if v.Some? {
      BadEntryFails(cx, schema, kind, ms[1..], m, acc[ms[0].key := v.value]);
    }
  }

  lemma {:induction false} BadItemFails(cx: Codec, schema: Schema, kind: Kind, js: seq<Json>, j: Json)
    requires j in js && DecElem(cx, schema, kind, j) == None
    ensures DecItems(cx, schema, kind, js) == None
    decreases |js|
  {
    if js[0] != j {
      BadItemFails(cx, schema, kind, js[1..], j);
    }
  }
}
