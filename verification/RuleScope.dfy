/**
 What names mean in a rule, said without the lookup: inside a loop the loop's variable
 is the item, whatever else is called so, and every other name keeps its meaning. The
 two loops are the quantifiers they are called after.
 */
module RuleScope {

  import opened Wrappers
  import opened RuleLang
  import opened RuleTypes
  import opened RuleEval
  import opened RuleNative
  import opened RuleAgree

  // ---- names --------------------------------------------------------------

  /** The last variable called `name` is the only one that can be found. */
  lemma FindIsInnermost(vars: seq<string>, name: string, i: nat)
    requires i < |vars| && vars[i] == name && name !in vars[i + 1..]
    ensures Find(vars, name) == Some(i)
  {
    assert forall j :: i < j < |vars| ==> vars[j] == vars[i + 1..][j - i - 1];
  }

  /** In the body of a loop over `name`, `name` is the item, in the native code and in
      the tree, whatever loops and fields outside are called. */
  lemma LoopVariableIsItem(e: Setting, name: string, t: Type, v: GoVal)
    requires |e.env| == |e.scope|
    ensures e.Inside(name, t, v).Native(Ident(name)) == Ok(v) && e.Inside(name, t, v).Tree(Ident(name)) == Ok(Conv(v))
    ensures e.Inside(name, t, v).TypeOf(Ident(name)) == Some(t)
  {
    var vars := Names(e.Inside(name, t, v).scope);
    FindIsInnermost(vars, name, |e.scope|);
  }

  /** The loop hides nothing but its own name; every variable outside has its slot. */
  lemma OtherNamesAreKept(e: Setting, name: string, t: Type, v: GoVal, other: string)
    requires |e.env| == |e.scope| && other != name && forall k: nat :: 1 <= k <= |e.scope| ==> k in e.genv
    ensures e.Inside(name, t, v).Native(Ident(other)) == e.Native(Ident(other))
    ensures e.Inside(name, t, v).Tree(Ident(other)) == e.Tree(Ident(other))
    ensures e.Inside(name, t, v).TypeOf(Ident(other)) == e.TypeOf(Ident(other))
  {
    var inner := e.Inside(name, t, v);
    SameBelow(Names(e.scope), name, other);
    assert Names(inner.scope) == Names(e.scope) + [name];
    var found := Find(Names(e.scope), other);
    if found.Some? {
      BoundName(e, other, found.value);
      BoundName(inner, other, found.value);
    } else {
      OutermostName(e, other);
      OutermostName(inner, other);
    }
    SameType(e.site, e.scope, name, t, other);
  }

  lemma SameType(site: Site, scope: Scope, name: string, t: Type, other: string)
    requires other != name
    ensures InferIdent(site, scope + [(name, t)], other) == InferIdent(site, scope, other)
  {
    SameBelow(Names(scope), name, other);
    assert Names(scope + [(name, t)]) == Names(scope) + [name];
  }

  lemma BoundName(e: Setting, name: string, i: nat)
    requires Find(Names(e.scope), name) == Some(i) && i + 1 in e.genv && i < |e.env|
    ensures e.Native(Ident(name)) == Ok(e.genv[i + 1]) && e.Tree(Ident(name)) == Ok(e.env[i])
  {
  }

  /** A name that is no loop variable looks at the message only. */
  lemma OutermostName(e: Setting, name: string)
    requires Find(Names(e.scope), name) == None
    ensures e.Native(Ident(name)) == Run(e.rt, CompileIdent(e.site, [], name), e.m, map[])
    ensures e.Tree(Ident(name)) == Meaning(e.rt, LowerIdent(e.site, [], name), Conv(e.m), [])
  {
    assert Find([], name) == None;
    assert Run(e.rt, GMessage, e.m, e.genv) == Run(e.rt, GMessage, e.m, map[]) == Ok(e.m);
    assert Meaning(e.rt, OSelf, Conv(e.m), e.env) == Meaning(e.rt, OSelf, Conv(e.m), []) == Ok(Conv(e.m));
  }

  lemma SameBelow(vars: seq<string>, name: string, other: string)
    requires other != name
    ensures Find(vars + [name], other) == Find(vars, other)
  {
    assert (vars + [name])[..|vars|] == vars;
  }

  /** Without a loop variable of that name, `self` is the message, and `value` the
      field a field rule is written on. */
  lemma SelfAndValue(e: Setting, f: Field)
    requires "self" !in Names(e.scope) && "value" !in Names(e.scope) && e.site.field == Some(f)
    ensures e.Native(Ident("self")) == Ok(e.m) && e.Tree(Ident("self")) == Ok(Conv(e.m))
    ensures e.Native(Ident("value")) == e.Native(Un(Select(f), Ident("self")))
    ensures e.Tree(Ident("value")) == e.Tree(Un(Select(f), Ident("self")))
  {
  }

  // ---- loops --------------------------------------------------------------

  /** `all` and `exists` over the items' verdicts. */
  ghost predicate Quantified(all: bool, verdicts: seq<bool>) {
    if all then forall i :: 0 <= i < |verdicts| ==> verdicts[i] else exists i :: 0 <= i < |verdicts| && verdicts[i]
  }

  lemma QuantifiedFirst(all: bool, verdicts: seq<bool>)
    requires verdicts != []
    ensures Quantified(all, verdicts) == if verdicts[0] != all then !all else Quantified(all, verdicts[1..])
  {
    assert forall i :: 0 < i < |verdicts| ==> verdicts[i] == verdicts[1..][i - 1];
    assert forall i :: 0 <= i < |verdicts| - 1 ==> verdicts[1..][i] == verdicts[i + 1];
  }

  /** A loop whose body gives `verdicts` is the quantifier over them, natively... */
  lemma {:induction false} NativeLoopQuantifies(
    e: Setting, all: bool, name: string, t: Type, items: seq<GoVal>, body: Node, verdicts: seq<bool>)
    requires |verdicts| == |items|
    requires forall i :: 0 <= i < |items| ==> e.Inside(name, t, items[i]).Native(body) == Ok(GBool(verdicts[i]))
    ensures
      var vars := Names(e.scope) + [name];
      RunLoop(e.rt, all, |vars|, items, Compile(e.site, vars, body), e.m, e.genv) == Ok(GBool(Quantified(all, verdicts)))
    decreases |items|
  {
    if items != [] {
      assert Names(e.scope + [(name, t)]) == Names(e.scope) + [name];
      NativeTurn(e, all, name, t, items, body);
      QuantifiedFirst(all, verdicts);
      assert e.Inside(name, t, items[0]).Native(body) == Ok(GBool(verdicts[0]));
      forall i | 0 <= i < |items[1..]|
        ensures e.Inside(name, t, items[1..][i]).Native(body) == Ok(GBool(verdicts[1..][i]))
      {
        assert items[1..][i] == items[i + 1] && verdicts[1..][i] == verdicts[i + 1];
      }
      NativeLoopQuantifies(e, all, name, t, items[1..], body, verdicts[1..]);
    }
  }

  /** ... and in the tree. */
  lemma {:induction false} TreeLoopQuantifies(
    e: Setting, all: bool, name: string, t: Type, items: seq<GoVal>, body: Node, verdicts: seq<bool>)
    requires |verdicts| == |items|
    requires forall i :: 0 <= i < |items| ==> e.Inside(name, t, items[i]).Tree(body) == Ok(VBool(verdicts[i]))
    ensures
      var op := Lower(e.site, Names(e.scope) + [name], body);
      MeaningQuant(e.rt, all, ConvAll(items), op, Conv(e.m), e.env) == Ok(VBool(Quantified(all, verdicts)))
    decreases |items|
  {
    if items != [] {
      assert Names(e.scope + [(name, t)]) == Names(e.scope) + [name];
      TreeTurn(e, all, name, t, items, body);
      QuantifiedFirst(all, verdicts);
      assert e.Inside(name, t, items[0]).Tree(body) == Ok(VBool(verdicts[0]));
      forall i | 0 <= i < |items[1..]|
        ensures e.Inside(name, t, items[1..][i]).Tree(body) == Ok(VBool(verdicts[1..][i]))
      {
        assert items[1..][i] == items[i + 1] && verdicts[1..][i] == verdicts[i + 1];
      }
      TreeLoopQuantifies(e, all, name, t, items[1..], body, verdicts[1..]);
    }
  }

  /** `all(x, ..)` and `exists(x, ..)` over a list whose items give `verdicts`. */
  lemma QuantIsQuantifier(e: Setting, all: bool, range: Node, name: string, t: Type, body: Node, items: seq<GoVal>, verdicts: seq<bool>)
    requires e.Native(range) == Ok(GSlice(items)) && e.Tree(range) == Ok(VList(ConvAll(items))) && |verdicts| == |items|
    requires forall i :: 0 <= i < |items| ==> e.Inside(name, t, items[i]).Native(body) == Ok(GBool(verdicts[i]))
    requires forall i :: 0 <= i < |items| ==> e.Inside(name, t, items[i]).Tree(body) == Ok(VBool(verdicts[i]))
    ensures e.Native(Quant(all, range, name, body)) == Ok(GBool(Quantified(all, verdicts)))
    ensures e.Tree(Quant(all, range, name, body)) == Ok(VBool(Quantified(all, verdicts)))
  {
    NativeQuant(e, all, range, name, body);
    NativeLoopQuantifies(e, all, name, t, items, body, verdicts);
    TreeQuant(e, all, range, name, body);
    TreeLoopQuantifies(e, all, name, t, items, body, verdicts);
  }
}
