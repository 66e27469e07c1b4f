/**
 The decoder and the order of its input's keys. In message and oneof objects the
 order does not matter and a repeated key fails. In map objects a repeated key
 overwrites: the order matters exactly when two values under one key differ.
 */
module JsonOrder {

  import opened Wrappers
  import opened JsonModel
  import opened JsonDecode
  import opened Reorder

  lemma {:induction false} FindFieldName(fs: seq<Field>, name: string)
    ensures FindField(fs, name).Some? ==> FindField(fs, name).value.name == name
    decreases |fs|
  {
    if fs != [] {
      FindFieldName(fs[1..], name);
    }
  }

  // ---- message objects ----------------------------------------------------

  /** Any field's key occurring twice makes the decoder give up. */
  lemma {:induction false} RepeatedKeyFails(
    cx: Codec, schema: Schema, fs: seq<Field>, ms: seq<Member>, i: nat, j: nat, seen: set<string>, acc: map<string, Value>)
    requires i < j < |ms| && ms[i].key == ms[j].key && FindField(fs, ms[i].key).Some?
    ensures DecMembers(cx, schema, fs, ms, seen, acc) == None
    decreases i
  {
    FindFieldName(fs, ms[0].key);
    if FindField(fs, ms[0].key).None? {
      RepeatedKeyFails(cx, schema, fs, ms[1..], i - 1, j - 1, seen, acc);
    } else {
      var v := DecMember(cx, schema, FindField(fs, ms[0].key).value.shape, ms[0]);
      if v.Some? {
        var seen', acc' := seen + {ms[0].key}, acc[ms[0].key := v.value];
        if i == 0 {
          SeenKeyFails(cx, schema, fs, ms[1..], j - 1, seen', acc');
        } else {
          RepeatedKeyFails(cx, schema, fs, ms[1..], i - 1, j - 1, seen', acc');
        }
      }
    }
  }

  lemma {:induction false} SeenKeyFails(
    cx: Codec, schema: Schema, fs: seq<Field>, ms: seq<Member>, j: nat, seen: set<string>, acc: map<string, Value>)
    requires j < |ms| && ms[j].key in seen && FindField(fs, ms[j].key).Some?
    ensures DecMembers(cx, schema, fs, ms, seen, acc) == None
    decreases j
  {
    FindFieldName(fs, ms[0].key);
    if j > 0 {
      if FindField(fs, ms[0].key).None? {
        SeenKeyFails(cx, schema, fs, ms[1..], j - 1, seen, acc);
      } else {
        var v := DecMember(cx, schema, FindField(fs, ms[0].key).value.shape, ms[0]);
        if v.Some? {
          SeenKeyFails(cx, schema, fs, ms[1..], j - 1, seen + {ms[0].key}, acc[ms[0].key := v.value]);
        }
      }
    }
  }

  /** What one turn of the token loop does to its seen bits and fields. */
  function MemberStep(cx: Codec, schema: Schema, fs: seq<Field>)
    : (Member, (set<string>, map<string, Value>)) -> Option<(set<string>, map<string, Value>)>
  {
    (m: Member, s: (set<string>, map<string, Value>)) =>
      match FindField(fs, m.key)
      case None => if cx.folds(m.key, set n <- Names(fs)) then None else Some(s)
      case Some(f) =>
        if f.name in s.0 then None
        else
          match DecMember(cx, schema, f.shape, m)
          case None => None
          case Some(v) => Some((s.0 + {f.name}, s.1[f.name := v]))
  }

  lemma {:induction false} MembersAreFold(
    cx: Codec, schema: Schema, fs: seq<Field>, ms: seq<Member>, seen: set<string>, acc: map<string, Value>)
    ensures
      var r := Fold(MemberStep(cx, schema, fs), ms, (seen, acc));
      DecMembers(cx, schema, fs, ms, seen, acc) == if r.None? then None else Some(r.value.1)
    decreases |ms|
  {
    if ms != [] {
      var r := MemberStep(cx, schema, fs)(ms[0], (seen, acc));
      if r.Some? {
        MembersAreFold(cx, schema, fs, ms[1..], r.value.0, r.value.1);
      }
    }
  }

  lemma MembersCommute(cx: Codec, schema: Schema, fs: seq<Field>, a: Member, b: Member)
    ensures Commute(MemberStep(cx, schema, fs), a, b)
  {
    var step := MemberStep(cx, schema, fs);
    forall s
      ensures Twice(step, a, b, s) == Twice(step, b, a, s)
    {
      var fa, fb := FindField(fs, a.key), FindField(fs, b.key);
      if step(a, s).Some? && step(b, s).Some? && fa.Some? && fb.Some? && fa.value.name != fb.value.name {
        var x, y := DecMember(cx, schema, fa.value.shape, a).value, DecMember(cx, schema, fb.value.shape, b).value;
        assert s.0 + {fa.value.name} + {fb.value.name} == s.0 + {fb.value.name} + {fa.value.name};
        assert s.1[fa.value.name := x][fb.value.name := y] == s.1[fb.value.name := y][fa.value.name := x];
      }
    }
  }

  /** Two message objects with the same members decode alike, whatever the order. */
  lemma KeyOrderIsIrrelevant(
    cx: Codec, schema: Schema, fs: seq<Field>, ms: seq<Member>, ms': seq<Member>, seen: set<string>, acc: map<string, Value>)
    requires multiset(ms) == multiset(ms')
    ensures DecMembers(cx, schema, fs, ms, seen, acc) == DecMembers(cx, schema, fs, ms', seen, acc)
  {
    forall a, b | a in ms && b in ms
      ensures Commute(MemberStep(cx, schema, fs), a, b)
    {
      MembersCommute(cx, schema, fs, a, b);
    }
    MembersAreFold(cx, schema, fs, ms, seen, acc);
    MembersAreFold(cx, schema, fs, ms', seen, acc);
    OrderIsIrrelevant(MemberStep(cx, schema, fs), ms, ms', (seen, acc));
  }

  // ---- oneof objects ------------------------------------------------------

  /** The keys a oneof object knows. */
  predicate CaseKey(disc: string, vs: seq<Variant>, key: string) {
    key == disc || FindVariant(vs, key).Some?
  }

  /** The tag or a variant's key occurring twice makes the decoder give up. */
  lemma {:induction false} RepeatedCaseKeyFails(
    cx: Codec, schema: Schema, disc: string, vs: seq<Variant>, ms: seq<Member>, i: nat, j: nat,
    seen: set<string>, tag: string, payloads: map<string, Value>)
    requires i < j < |ms| && ms[i].key == ms[j].key && CaseKey(disc, vs, ms[i].key)
    ensures DecCase(cx, schema, disc, vs, ms, seen, tag, payloads) == None
    decreases i
  {
    CaseFirst(cx, schema, disc, vs, ms, seen, tag, payloads);
    var r := CaseStep(cx, schema, disc, vs)(ms[0], (seen, tag, payloads));
    if r.Some? {
      if i == 0 {
        SeenCaseKeyFails(cx, schema, disc, vs, ms[1..], j - 1, r.value.0, r.value.1, r.value.2);
      } else {
        RepeatedCaseKeyFails(cx, schema, disc, vs, ms[1..], i - 1, j - 1, r.value.0, r.value.1, r.value.2);
      }
    }
  }

  lemma {:induction false} SeenCaseKeyFails(
    cx: Codec, schema: Schema, disc: string, vs: seq<Variant>, ms: seq<Member>, j: nat,
    seen: set<string>, tag: string, payloads: map<string, Value>)
    requires j < |ms| && ms[j].key in seen && CaseKey(disc, vs, ms[j].key)
    ensures DecCase(cx, schema, disc, vs, ms, seen, tag, payloads) == None
    decreases j
  {
    CaseFirst(cx, schema, disc, vs, ms, seen, tag, payloads);
    var r := CaseStep(cx, schema, disc, vs)(ms[0], (seen, tag, payloads));
    if j > 0 && r.Some? {
      SeenCaseKeyFails(cx, schema, disc, vs, ms[1..], j - 1, r.value.0, r.value.1, r.value.2);
    }
  }

  type CaseState = (set<string>, string, map<string, Value>)

  /** What one turn of the oneof's token loop does to its seen bits, tag and payloads. */
  function CaseStep(cx: Codec, schema: Schema, disc: string, vs: seq<Variant>): (Member, CaseState) -> Option<CaseState> {
    (m: Member, s: CaseState) =>
      if m.key == disc then
        if m.key in s.0 || !(m.val.JNull? || m.val.JStr?) then None
        else Some((s.0 + {m.key}, if m.val.JNull? then s.1 else m.val.s, s.2))
      else
        match FindVariant(vs, m.key)
        case None => if cx.folds(m.key, {disc} + set n <- VariantNames(vs)) then None else Some(s)
        case Some(v) =>
          if m.key in s.0 then None
          else if m.val.JNull? then Some((s.0 + {m.key}, s.1, s.2))
          else
            match DecPayload(cx, schema, v.kind, m)
            case None => None
            case Some(x) => Some((s.0 + {m.key}, s.1, s.2[m.key := x]))
  }

  lemma CaseFirst(cx: Codec, schema: Schema, disc: string, vs: seq<Variant>, ms: seq<Member>,
                  seen: set<string>, tag: string, payloads: map<string, Value>)
    requires ms != []
    ensures
      var r := CaseStep(cx, schema, disc, vs)(ms[0], (seen, tag, payloads));
      DecCase(cx, schema, disc, vs, ms, seen, tag, payloads)
      == if r.None? then None else DecCase(cx, schema, disc, vs, ms[1..], r.value.0, r.value.1, r.value.2)
  {
  }

  lemma {:induction false} CaseIsFold(cx: Codec, schema: Schema, disc: string, vs: seq<Variant>, ms: seq<Member>,
                                      seen: set<string>, tag: string, payloads: map<string, Value>)
    ensures
      var r := Fold(CaseStep(cx, schema, disc, vs), ms, (seen, tag, payloads));
      DecCase(cx, schema, disc, vs, ms, seen, tag, payloads) == if r.None? then None else Some((r.value.1, r.value.2))
    decreases |ms|
  {
    if ms != [] {
      CaseFirst(cx, schema, disc, vs, ms, seen, tag, payloads);
      var r := CaseStep(cx, schema, disc, vs)(ms[0], (seen, tag, payloads));
      if r.Some? {
        CaseIsFold(cx, schema, disc, vs, ms[1..], r.value.0, r.value.1, r.value.2);
      }
    }
  }

  /** The payload a member of the oneof object adds, if it does. */
  function Payload(cx: Codec, schema: Schema, disc: string, vs: seq<Variant>, m: Member): Option<Value> {
    if m.key == disc || m.val.JNull? || FindVariant(vs, m.key).None? then None
    else DecPayload(cx, schema, FindVariant(vs, m.key).value.kind, m)
  }

  lemma CaseStepsCommute(cx: Codec, schema: Schema, disc: string, vs: seq<Variant>, a: Member, b: Member)
    ensures Commute(CaseStep(cx, schema, disc, vs), a, b)
  {
    var step := CaseStep(cx, schema, disc, vs);
    forall s: CaseState
      ensures Twice(step, a, b, s) == Twice(step, b, a, s)
    {
      if step(a, s).Some? && step(b, s).Some? && a.key != b.key {
        assert s.0 + {a.key} + {b.key} == s.0 + {b.key} + {a.key};
        var pa, pb := Payload(cx, schema, disc, vs, a), Payload(cx, schema, disc, vs, b);
        if pa.Some? && pb.Some? {
          assert s.2[a.key := pa.value][b.key := pb.value] == s.2[b.key := pb.value][a.key := pa.value];
        }
      }
    }
  }

  /** Two oneof objects with the same members decode alike, whatever the order: the
      tag may come last. */
  lemma CaseKeyOrderIsIrrelevant(cx: Codec, schema: Schema, disc: string, vs: seq<Variant>, ms: seq<Member>, ms': seq<Member>,
                                 seen: set<string>, tag: string, payloads: map<string, Value>)
    requires multiset(ms) == multiset(ms')
    ensures DecCase(cx, schema, disc, vs, ms, seen, tag, payloads) == DecCase(cx, schema, disc, vs, ms', seen, tag, payloads)
  {
    forall a, b | a in ms && b in ms
      ensures Commute(CaseStep(cx, schema, disc, vs), a, b)
    {
      CaseStepsCommute(cx, schema, disc, vs, a, b);
    }
    CaseIsFold(cx, schema, disc, vs, ms, seen, tag, payloads);
    CaseIsFold(cx, schema, disc, vs, ms', seen, tag, payloads);
    OrderIsIrrelevant(CaseStep(cx, schema, disc, vs), ms, ms', (seen, tag, payloads));
  }

  // ---- map objects --------------------------------------------------------

  function EntryStep(cx: Codec, schema: Schema, kind: Kind): (Member, map<string, Value>) -> Option<map<string, Value>> {
    (m: Member, acc: map<string, Value>) =>
      match DecEntry(cx, schema, kind, m)
      case None => None
      case Some(v) => Some(acc[m.key := v])
  }

  lemma {:induction false} EntriesAreFold(cx: Codec, schema: Schema, kind: Kind, ms: seq<Member>, acc: map<string, Value>)
    ensures DecEntries(cx, schema, kind, ms, acc) == Fold(EntryStep(cx, schema, kind), ms, acc)
    decreases |ms|
  {
    if ms != [] {
      var r := EntryStep(cx, schema, kind)(ms[0], acc);
      if r.Some? {
        EntriesAreFold(cx, schema, kind, ms[1..], r.value);
      }
    }
  }

  /** Values under one key are equal once decoded. In particular so it is when no
      key occurs twice. */
  predicate OneValuePerKey(cx: Codec, schema: Schema, kind: Kind, ms: seq<Member>) {
    forall a <- ms, b <- ms :: a.key == b.key ==> DecEntry(cx, schema, kind, a) == DecEntry(cx, schema, kind, b)
  }

  predicate DistinctKeys(ms: seq<Member>) {
    forall i, j :: 0 <= i < j < |ms| ==> ms[i].key != ms[j].key
  }

  lemma DistinctKeysOneValue(cx: Codec, schema: Schema, kind: Kind, ms: seq<Member>)
    requires DistinctKeys(ms)
    ensures OneValuePerKey(cx, schema, kind, ms)
  {
    forall a, b | a in ms && b in ms && a.key == b.key
      ensures a == b
    {
      var i :| 0 <= i < |ms| && ms[i] == a;
      var j :| 0 <= j < |ms| && ms[j] == b;
      assert i == j;
    }
  }

  lemma EntriesCommute(cx: Codec, schema: Schema, kind: Kind, a: Member, b: Member)
    requires a.key == b.key ==> DecEntry(cx, schema, kind, a) == DecEntry(cx, schema, kind, b)
    ensures Commute(EntryStep(cx, schema, kind), a, b)
  {
    var step := EntryStep(cx, schema, kind);
    forall s: map<string, Value>
      ensures Twice(step, a, b, s) == Twice(step, b, a, s)
    {
      var va, vb := DecEntry(cx, schema, kind, a), DecEntry(cx, schema, kind, b);
      if va.Some? && vb.Some? {
        assert s[a.key := va.value][b.key := vb.value] == s[b.key := vb.value][a.key := va.value];
      }
    }
  }

  lemma EntryOrderIsIrrelevant(cx: Codec, schema: Schema, kind: Kind, ms: seq<Member>, ms': seq<Member>, acc: map<string, Value>)
    requires multiset(ms) == multiset(ms') && OneValuePerKey(cx, schema, kind, ms)
    ensures DecEntries(cx, schema, kind, ms, acc) == DecEntries(cx, schema, kind, ms', acc)
  {
    forall a, b | a in ms && b in ms
      ensures Commute(EntryStep(cx, schema, kind), a, b)
    {
      EntriesCommute(cx, schema, kind, a, b);
    }
    EntriesAreFold(cx, schema, kind, ms, acc);
    EntriesAreFold(cx, schema, kind, ms', acc);
    OrderIsIrrelevant(EntryStep(cx, schema, kind), ms, ms', acc);
  }

  /** The last value under a key wins. */
  lemma {:induction false} LastEntryWins(cx: Codec, schema: Schema, kind: Kind, ms: seq<Member>, m: Member, acc: map<string, Value>)
    requires DecEntries(cx, schema, kind, ms + [m], acc).Some?
    ensures
      var before := DecEntries(cx, schema, kind, ms, acc);
      && before.Some? && DecEntry(cx, schema, kind, m).Some?
      && DecEntries(cx, schema, kind, ms + [m], acc) == Some(before.value[m.key := DecEntry(cx, schema, kind, m).value])
    decreases |ms|
  {
    var all := ms + [m];
    if ms == [] {
      assert all == [m] && all[1..] == [];
    } else {
      assert all[0] == ms[0] && all[1..] == ms[1..] + [m];
      LastEntryWins(cx, schema, kind, ms[1..], m, acc[ms[0].key := DecEntry(cx, schema, kind, ms[0]).value]);
    }
  }

  /** Every reordering of the members decodes alike. */
  ghost predicate OrderIsFree(cx: Codec, schema: Schema, kind: Kind, ms: seq<Member>, acc: map<string, Value>) {
    forall ms' :: multiset(ms') == multiset(ms) ==> DecEntries(cx, schema, kind, ms', acc) == DecEntries(cx, schema, kind, ms, acc)
  }

  lemma EveryEntryDecides(cx: Codec, schema: Schema, kind: Kind, ms: seq<Member>, m: Member, acc: map<string, Value>)
    requires DecEntries(cx, schema, kind, ms, acc).Some? && OrderIsFree(cx, schema, kind, ms, acc) && m in ms
    ensures
      var r := DecEntries(cx, schema, kind, ms, acc).value;
      m.key in r && DecEntry(cx, schema, kind, m) == Some(r[m.key])
  {
    var others := WithLast(ms, m);
    assert DecEntries(cx, schema, kind, others + [m], acc) == DecEntries(cx, schema, kind, ms, acc);
    LastEntryWins(cx, schema, kind, others, m, acc);
  }

  /** Exactly when the order of a readable map object's members does not matter. */
  lemma EntryOrderExactly(cx: Codec, schema: Schema, kind: Kind, ms: seq<Member>, acc: map<string, Value>)
    requires DecEntries(cx, schema, kind, ms, acc).Some?
    ensures OrderIsFree(cx, schema, kind, ms, acc) <==> OneValuePerKey(cx, schema, kind, ms)
  {
    if OneValuePerKey(cx, schema, kind, ms) {
      forall ms' | multiset(ms') == multiset(ms)
        ensures DecEntries(cx, schema, kind, ms', acc) == DecEntries(cx, schema, kind, ms, acc)
      {
        EntryOrderIsIrrelevant(cx, schema, kind, ms, ms', acc);
      }
    }
    if OrderIsFree(cx, schema, kind, ms, acc) {
      forall a, b | a in ms && b in ms && a.key == b.key
        ensures DecEntry(cx, schema, kind, a) == DecEntry(cx, schema, kind, b)
      {
        EveryEntryDecides(cx, schema, kind, ms, a, acc);
        EveryEntryDecides(cx, schema, kind, ms, b, acc);
      }
    }
  }

  lemma WithLast(ms: seq<Member>, m: Member) returns (others: seq<Member>)
    requires m in ms
    ensures multiset(others + [m]) == multiset(ms)
  {
    var k :| 0 <= k < |ms| && ms[k] == m;
    others := ms[..k] + ms[k + 1..];
    Without(ms, k);
    assert multiset(others + [m]) == multiset(others) + multiset{m};
  }

  /** `{"k": 1, "k": 2}` is accepted, and read the other way round it is another map. */
  lemma RepeatedEntryOverwrites(cx: Codec, schema: Schema)
    ensures
      var kind := KInt(0, 9);
      var one, two := Member("k", JInt(1)), Member("k", JInt(2));
      && DecEntries(cx, schema, kind, [one, two], map[]) == Some(map["k" := VInt(2)])
      && DecEntries(cx, schema, kind, [two, one], map[]) == Some(map["k" := VInt(1)])
  {
    var kind := KInt(0, 9);
    var one, two := Member("k", JInt(1)), Member("k", JInt(2));
    var none: map<string, Value> := map[];
    ReadsTwo(cx, schema, kind, one, two);
    ReadsTwo(cx, schema, kind, two, one);
    assert none["k" := VInt(1)]["k" := VInt(2)] == map["k" := VInt(2)];
    assert none["k" := VInt(2)]["k" := VInt(1)] == map["k" := VInt(1)];
  }

  lemma ReadsTwo(cx: Codec, schema: Schema, kind: Kind, a: Member, b: Member)
    requires DecEntry(cx, schema, kind, a).Some? && DecEntry(cx, schema, kind, b).Some?
    ensures
      var none: map<string, Value> := map[];
      DecEntries(cx, schema, kind, [a, b], none)
      == Some(none[a.key := DecEntry(cx, schema, kind, a).value][b.key := DecEntry(cx, schema, kind, b).value])
  {
    var none: map<string, Value> := map[];
    var first := none[a.key := DecEntry(cx, schema, kind, a).value];
    assert [a, b][1..] == [b] && [b][1..] == [];
    assert DecEntries(cx, schema, kind, [a, b], none) == DecEntries(cx, schema, kind, [b], first);
    assert DecEntries(cx, schema, kind, [b], first)
        == DecEntries(cx, schema, kind, [], first[b.key := DecEntry(cx, schema, kind, b).value]);
  }
}
