/**
 The staged separator compiler behind AppendJSON. Generating a member's code, the
 generator knows whether a brace or a comma comes before it, or knows only that a
 variable of the generated code will say. `AppendGen` is the generator, `Exec`
 runs what it emits.
 */
module Separators {

  import opened Wrappers

  // ---- the emitted code ---------------------------------------------------

  datatype Stmt =
    | DeclareSep                            // sep := byte('{')
    | Text(text: string)                    // b = append(b, text...)
    | Sep                                   // b = append(b, sep)
    | SepIsComma                            // sep = ','
    | Body(member: nat)                     // the member's value, which may return an error
    | If(member: nat, block: seq<Stmt>)      // if the member is set
    | IfUnopened(block: seq<Stmt>)           // if sep == '{'

  /** One message: which conditional members are set, and each value's text or error. */
  datatype Message = Message(isSet: seq<bool>, bodies: seq<Option<string>>)

  /** The running function: appending, returned with an error, or reading a `sep`
      that was never declared, which would not compile. */
  datatype Machine = Running(b: string, sep: Option<char>) | Failed | Stuck

  function Exec(code: seq<Stmt>, msg: Message, m: Machine): Machine
    decreases code
  {
    if code == [] || !m.Running? then m
    else Exec(code[1..], msg, Step(code[0], msg, m))
  }

  function Step(s: Stmt, msg: Message, m: Machine): Machine
    requires m.Running?
    decreases s
  {
    match s
    case DeclareSep => m.(sep := Some('{'))
    case Text(text) => m.(b := m.b + text)
    case Sep => if m.sep.Some? then m.(b := m.b + [m.sep.value]) else Stuck
    case SepIsComma => if m.sep.Some? then m.(sep := Some(',')) else Stuck
    case Body(i) => if i < |msg.bodies| && msg.bodies[i].Some? then m.(b := m.b + msg.bodies[i].value) else Failed
    case If(i, block) => if i < |msg.isSet| && msg.isSet[i] then Exec(block, msg, m) else m
    case IfUnopened(block) => if m.sep.None? then Stuck else if m.sep == Some('{') then Exec(block, msg, m) else m
  }

  // ---- the generator ------------------------------------------------------

  datatype Member = Member(name: string, always: bool)

  datatype State = None_ | Some_ | Maybe

  function Quoted(name: string): string {
    "\"" + name + "\":"
  }

  function KeyCode(state: State, name: string, conditional: bool): seq<Stmt> {
    match state
    case None_ => [Text("{" + Quoted(name))]
    case Some_ => [Text("," + Quoted(name))]
    case Maybe => [Sep, Text(Quoted(name))] + if conditional then [SepIsComma] else []
  }

  function MemberCode(state: State, i: nat, m: Member): seq<Stmt> {
    var code := KeyCode(state, m.name, !m.always) + [Body(i)];
    if m.always then code else [If(i, code)]
  }

  function After(state: State, m: Member): State {
    if m.always then Some_ else if state == None_ then Maybe else state
  }

  function MembersCode(state: State, i: nat, ms: seq<Member>): seq<Stmt>
    decreases |ms|
  {
    if ms == [] then [] else MemberCode(state, i, ms[0]) + MembersCode(After(state, ms[0]), i + 1, ms[1..])
  }

  function StateAfter(state: State, ms: seq<Member>): State
    decreases |ms|
  {
    if ms == [] then state else StateAfter(After(state, ms[0]), ms[1..])
  }

  lemma NextMember(state: State, i: nat, ms: seq<Member>)
    requires i < |ms|
    ensures
      var next := After(state, ms[i]);
      && MembersCode(state, i, ms[i..]) == MemberCode(state, i, ms[i]) + MembersCode(next, i + 1, ms[i + 1..])
      && StateAfter(state, ms[i..]) == StateAfter(next, ms[i + 1..])
  {
    assert ms[i..][0] == ms[i] && ms[i..][1..] == ms[i + 1..];
  }

  function Initial(ms: seq<Member>): State {
    if ms != [] && !ms[0].always then Maybe else None_
  }

  function EndCode(state: State): seq<Stmt> {
    match state
    case None_ => [Text("{}")]
    case Some_ => [Text("}")]
    case Maybe => [IfUnopened([Text("{")]), Text("}")]
  }

  /** The whole method body. */
  function Code(ms: seq<Member>): seq<Stmt> {
    (if Initial(ms) == Maybe then [DeclareSep] else [])
    + MembersCode(Initial(ms), 0, ms)
    + EndCode(StateAfter(Initial(ms), ms))
  }

  /** The generator keeps its state in a field and prints as it goes. */
  class AppendGen {
    var state: State
    var out: seq<Stmt>

    constructor ()
      ensures state == None_ && out == []
    {
      state := None_;
      out := [];
    }

    /** Code for a key, and the separator before it. */
    method Key(name: string, conditional: bool) returns (code: seq<Stmt>)
      ensures code == KeyCode(state, name, conditional)
    {
      match state
      case None_ => code := [Text("{" + Quoted(name))];
      case Some_ => code := [Text("," + Quoted(name))];
      case Maybe =>
        code := [Sep, Text(Quoted(name))];
        if conditional {
          code := code + [SepIsComma];
        }
    }

    method Field(i: nat, m: Member)
      modifies this
      ensures out == old(out) + MemberCode(old(state), i, m) && state == After(old(state), m)
    {
      var code := Key(m.name, !m.always);
      code := code + [Body(i)];
      out := out + if m.always then code else [If(i, code)];
      if m.always {
        state := Some_;
      } else if state == None_ {
        state := Maybe;
      }
    }

    method Write(ms: seq<Member>)
      modifies this
      ensures out == old(out) + Code(ms)
    {
      ghost var before := out;
      state := None_;
      if |ms| > 0 && !ms[0].always {
        state := Maybe;
        out := out + [DeclareSep];
      }
      ghost var prefix := out;
      assert ms[0..] == ms;
      for i := 0 to |ms|
        invariant out + MembersCode(state, i, ms[i..]) == prefix + MembersCode(Initial(ms), 0, ms)
        invariant StateAfter(state, ms[i..]) == StateAfter(Initial(ms), ms)
      {
        NextMember(state, i, ms);
        ghost var was, code := out, MemberCode(state, i, ms[i]);
        Field(i, ms[i]);
        Associate(was, code, MembersCode(state, i + 1, ms[i + 1..]));
      }
      assert ms[|ms|..] == [];
      assert out + [] == out;
      match state
      case None_ => out := out + [Text("{}")];
      case Some_ => out := out + [Text("}")];
      case Maybe => out := out + [IfUnopened([Text("{")]), Text("}")];
      assert prefix == before + (if Initial(ms) == Maybe then [DeclareSep] else []);
    }
  }

  // ---- what it should write -----------------------------------------------

  predicate Present(ms: seq<Member>, msg: Message, i: nat)
    requires i < |ms| == |msg.isSet|
  {
    ms[i].always || msg.isSet[i]
  }

  /** The members an object has, in order: key and value, or the value's error. */
  function Members(ms: seq<Member>, msg: Message, i: nat): seq<Option<string>>
    requires i <= |ms| == |msg.isSet| == |msg.bodies|
    decreases |ms| - i
  {
    if i == |ms| then []
    else if !Present(ms, msg, i) then Members(ms, msg, i + 1)
    else
      var text := if msg.bodies[i].Some? then Some(Quoted(ms[i].name) + msg.bodies[i].value) else None;
      [text] + Members(ms, msg, i + 1)
  }

  function Join(texts: seq<string>): string {
    if texts == [] then "" else if |texts| == 1 then texts[0] else texts[0] + "," + Join(texts[1..])
  }

  predicate AllWritten(ms: seq<Option<string>>) {
    forall m <- ms :: m.Some?
  }

  function Texts(ms: seq<Option<string>>): (r: seq<string>)
    requires AllWritten(ms)
    ensures |r| == |ms|
  {
    if ms == [] then [] else [ms[0].value] + Texts(ms[1..])
  }

  /** An object in the sense of section 4 of RFC 8259. */
  function Object(texts: seq<string>): string {
    "{" + Join(texts) + "}"
  }

  // ---- correctness --------------------------------------------------------

  lemma {:induction false} ExecConcat(c: seq<Stmt>, d: seq<Stmt>, msg: Message, m: Machine)
    ensures Exec(c + d, msg, m) == Exec(d, msg, Exec(c, msg, m))
    decreases c
  {
    if c == [] || !m.Running? {
      assert [] + d == d;
    } else {
      assert (c + d)[0] == c[0] && (c + d)[1..] == c[1..] + d;
      ExecConcat(c[1..], d, msg, Step(c[0], msg, m));
    }
  }

  /** How the generator's state, the variable and the text so far hang together. */
  predicate Coherent(state: State, started: bool, sep: Option<char>) {
    match state
    case None_ => !started
    case Some_ => started
    case Maybe => sep == Some(if started then ',' else '{')
  }

  /** What is appended from here on, when a brace has or has not been written. */
  function Rest(started: bool, ms: seq<Option<string>>): string
    requires AllWritten(ms)
    decreases |ms|
  {
    if ms == [] then (if started then "}" else "{}")
    else (if started then "," else "{") + ms[0].value + Rest(true, ms[1..])
  }

  lemma {:induction false} RestAfterMember(ms: seq<Option<string>>)
    requires AllWritten(ms)
    ensures Rest(true, ms) == if ms == [] then "}" else "," + Join(Texts(ms)) + "}"
    decreases |ms|
  {
    if |ms| == 1 {
      assert ms[1..] == [];
    } else if |ms| > 1 {
      var m, more := ms[0].value, Join(Texts(ms[1..]));
      RestAfterMember(ms[1..]);
      assert Join(Texts(ms)) == m + "," + more;
      assert "," + m + ("," + more + "}") == "," + (m + "," + more) + "}";
    }
  }

  lemma RestIsObject(ms: seq<Option<string>>)
    requires AllWritten(ms)
    ensures Rest(false, ms) == Object(Texts(ms))
  {
    if |ms| == 1 {
      assert ms[1..] == [];
    } else if |ms| > 1 {
      var m, more := ms[0].value, Join(Texts(ms[1..]));
      RestAfterMember(ms[1..]);
      assert Join(Texts(ms)) == m + "," + more;
      assert "{" + m + ("," + more + "}") == "{" + (m + "," + more) + "}";
    }
  }

  /** Running one member's code from a coherent machine. */
  lemma MemberRuns(state: State, i: nat, m: Member, msg: Message, b: string, sep: Option<char>, started: bool)
    requires i < |msg.isSet| == |msg.bodies|
    requires Coherent(state, started, sep) && (m.always || state != None_)
    ensures
      var r := Exec(MemberCode(state, i, m), msg, Running(b, sep));
      if !(m.always || msg.isSet[i]) then r == Running(b, sep)
      else if msg.bodies[i].None? then r == Failed
      else r.Running? && r.b == b + (if started then "," else "{") + Quoted(m.name) + msg.bodies[i].value
           && Coherent(After(state, m), true, r.sep)
  {
    KeyRuns(state, m, msg, b, sep, started);
    var key := KeyCode(state, m.name, !m.always);
    ExecConcat(key, [Body(i)], msg, Running(b, sep));
    ExecOne(Body(i), msg, Exec(key, msg, Running(b, sep)));
    if !m.always {
      ExecOne(If(i, key + [Body(i)]), msg, Running(b, sep));
    }
  }

  lemma ExecOne(s: Stmt, msg: Message, m: Machine)
    ensures Exec([s], msg, m) == if m.Running? then Step(s, msg, m) else m
  {
  }

  lemma KeyRuns(state: State, m: Member, msg: Message, b: string, sep: Option<char>, started: bool)
    requires Coherent(state, started, sep) && (m.always || state != None_)
    ensures
      var r := Exec(KeyCode(state, m.name, !m.always), msg, Running(b, sep));
      r.Running? && r.b == b + (if started then "," else "{") + Quoted(m.name) && Coherent(After(state, m), true, r.sep)
  {
    if state == Maybe {
      var tail := if m.always then [] else [SepIsComma];
      ExecConcat([Sep], [Text(Quoted(m.name))] + tail, msg, Running(b, sep));
      assert KeyCode(state, m.name, !m.always) == [Sep] + ([Text(Quoted(m.name))] + tail);
      ExecOne(Sep, msg, Running(b, sep));
      ExecConcat([Text(Quoted(m.name))], tail, msg, Running(b + [sep.value], sep));
      ExecOne(Text(Quoted(m.name)), msg, Running(b + [sep.value], sep));
      if !m.always {
        ExecOne(SepIsComma, msg, Running(b + [sep.value] + Quoted(m.name), sep));
      }
    }
  }

  lemma EndRuns(state: State, msg: Message, b: string, sep: Option<char>, started: bool)
    requires Coherent(state, started, sep)
    ensures var r := Exec(EndCode(state), msg, Running(b, sep)); r.Running? && r.b == b + Rest(started, [])
  {
    if state == Maybe {
      var open := IfUnopened([Text("{")]);
      ExecConcat([open], [Text("}")], msg, Running(b, sep));
      ExecOne(open, msg, Running(b, sep));
      ExecOne(Text("{"), msg, Running(b, sep));
      assert EndCode(state) == [open] + [Text("}")];
      assert b + "{" + "}" == b + "{}";
    }
  }

  predicate Wrote(r: Machine, b: string, started: bool, ms: seq<Option<string>>) {
    if AllWritten(ms) then r.Running? && r.b == b + Rest(started, ms) else r == Failed
  }

  lemma {:induction false} MembersRun(
    ms: seq<Member>, i: nat, state: State, msg: Message, b: string, sep: Option<char>, started: bool)
    requires i <= |ms| == |msg.isSet| == |msg.bodies|
    requires Coherent(state, started, sep) && (i < |ms| && !ms[i].always ==> state != None_)
    requires state == None_ ==> i == 0
    ensures Wrote(Exec(MembersCode(state, i, ms[i..]) + EndCode(StateAfter(state, ms[i..])), msg, Running(b, sep)),
                  b, started, Members(ms, msg, i))
    decreases |ms| - i
  {
    if i == |ms| {
      EndRuns(state, msg, b, sep, started);
      assert [] + EndCode(state) == EndCode(state);
    } else {
      var next := After(state, ms[i]);
      var head, tail := MemberCode(state, i, ms[i]), MembersCode(next, i + 1, ms[i + 1..]) + EndCode(StateAfter(next, ms[i + 1..]));
      OneThenRest(ms, i, state, msg, Running(b, sep));
      MemberRuns(state, i, ms[i], msg, b, sep, started);
      var r := Exec(head, msg, Running(b, sep));
      if r.Running? {
        MembersRun(ms, i + 1, next, msg, r.b, r.sep, started || Present(ms, msg, i));
      }
      MembersStep(ms, i, msg, b, started, r, Exec(tail, msg, r));
    }
  }

  /** Running a member's code, then that of the others. */
  lemma OneThenRest(ms: seq<Member>, i: nat, state: State, msg: Message, m: Machine)
    requires i < |ms|
    ensures
      var next := After(state, ms[i]);
      Exec(MembersCode(state, i, ms[i..]) + EndCode(StateAfter(state, ms[i..])), msg, m)
      == Exec(MembersCode(next, i + 1, ms[i + 1..]) + EndCode(StateAfter(next, ms[i + 1..])), msg, Exec(MemberCode(state, i, ms[i]), msg, m))
  {
    var next := After(state, ms[i]);
    var head, rest, end := MemberCode(state, i, ms[i]), MembersCode(next, i + 1, ms[i + 1..]), EndCode(StateAfter(next, ms[i + 1..]));
    NextMember(state, i, ms);
    Associate(head, rest, end);
    ExecConcat(head, rest + end, msg, m);
  }

  lemma Associate(a: seq<Stmt>, b: seq<Stmt>, c: seq<Stmt>)
    ensures a + (b + c) == a + b + c
  {
  }

  /** From one member's outcome `r` and the outcome `end` of the rest to the whole. */
  lemma MembersStep(ms: seq<Member>, i: nat, msg: Message, b: string, started: bool, r: Machine, end: Machine)
    requires i < |ms| == |msg.isSet| == |msg.bodies|
    requires
      if !Present(ms, msg, i) then r.Running? && r.b == b
      else if msg.bodies[i].None? then r == Failed && end == Failed
      else r.Running? && r.b == b + (if started then "," else "{") + Quoted(ms[i].name) + msg.bodies[i].value
    requires r.Running? ==> Wrote(end, r.b, started || Present(ms, msg, i), Members(ms, msg, i + 1))
    ensures Wrote(end, b, started, Members(ms, msg, i))
  {
    if Present(ms, msg, i) {
      if r.Running? {
        var text := Quoted(ms[i].name) + msg.bodies[i].value;
        assert r.b == b + (if started then "," else "{") + text;
        WroteOneMore(end, b, started, text, Members(ms, msg, i + 1), r.b);
      } else {
        assert Members(ms, msg, i)[0] == None;
      }
    }
  }

  lemma WroteOneMore(r: Machine, b: string, started: bool, text: string, rest: seq<Option<string>>, b': string)
    requires Wrote(r, b', true, rest) && b' == b + (if started then "," else "{") + text
    ensures Wrote(r, b, started, [Some(text)] + rest)
  {
    var ms := [Some(text)] + rest;
    assert ms[1..] == rest;
    if AllWritten(rest) {
      assert AllWritten(ms);
      assert b' + Rest(true, rest) == b + ((if started then "," else "{") + text + Rest(true, rest));
    } else {
      var m :| m in rest && m.None?;
      assert m in ms;
    }
  }

  /** For every list of members and every message, the generated code appends one
      object with exactly the present members, or returns the error of one. */
  lemma CodeWritesObject(ms: seq<Member>, msg: Message, b: string)
    requires |ms| == |msg.isSet| == |msg.bodies|
    ensures
      var r := Exec(Code(ms), msg, Running(b, None));
      var members := Members(ms, msg, 0);
      if AllWritten(members) then r.Running? && r.b == b + Object(Texts(members)) else r == Failed
  {
    var state := Initial(ms);
    var body := MembersCode(state, 0, ms) + EndCode(StateAfter(state, ms));
    assert ms[0..] == ms;
    if state == Maybe {
      assert Code(ms) == [DeclareSep] + body;
      ExecConcat([DeclareSep], body, msg, Running(b, None));
      ExecOne(DeclareSep, msg, Running(b, None));
      MembersRun(ms, 0, state, msg, b, Some('{'), false);
    } else {
      assert Code(ms) == body;
      MembersRun(ms, 0, state, msg, b, None, false);
    }
    if AllWritten(Members(ms, msg, 0)) {
      RestIsObject(Members(ms, msg, 0));
    }
  }
}
