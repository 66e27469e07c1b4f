/**
 A loop over a list whose steps commute gives the same result on every reordering
 of the list.
 */
module Reorder {

  import opened Wrappers

  /** Runs `step` over the list; None stops the loop. */
  function Fold<M, S>(step: (M, S) -> Option<S>, ms: seq<M>, s: S): Option<S>
    decreases |ms|
  {
    if ms == [] then Some(s)
    else
      match step(ms[0], s)
      case None => None
      case Some(t) => Fold(step, ms[1..], t)
  }

  function Twice<M, S>(step: (M, S) -> Option<S>, a: M, b: M, s: S): Option<S> {
    match step(a, s)
    case None => None
    case Some(t) => step(b, t)
  }

  ghost predicate Commute<M, S(!new)>(step: (M, S) -> Option<S>, a: M, b: M) {
    forall s :: Twice(step, a, b, s) == Twice(step, b, a, s)
  }

  ghost predicate AllCommute<M(!new), S(!new)>(step: (M, S) -> Option<S>, ms: seq<M>) {
    forall a, b :: a in ms && b in ms ==> Commute(step, a, b)
  }

  lemma FoldFirst<M, S>(step: (M, S) -> Option<S>, m: M, rest: seq<M>, s: S)
    ensures Fold(step, [m] + rest, s) == match step(m, s) case None => None case Some(t) => Fold(step, rest, t)
  {
    assert ([m] + rest)[1..] == rest;
  }

  lemma SwapFirst<M(!new), S(!new)>(step: (M, S) -> Option<S>, a: M, b: M, rest: seq<M>, s: S)
    requires Commute(step, a, b)
    ensures Fold(step, [a] + ([b] + rest), s) == Fold(step, [b] + ([a] + rest), s)
  {
    assert Twice(step, a, b, s) == Twice(step, b, a, s);
    FoldFirst(step, a, [b] + rest, s);
    FoldFirst(step, b, [a] + rest, s);
    if step(a, s).Some? {
      FoldFirst(step, b, rest, step(a, s).value);
    }
    if step(b, s).Some? {
      FoldFirst(step, a, rest, step(b, s).value);
    }
  }

  lemma {:induction false} MoveToFront<M(!new), S(!new)>(step: (M, S) -> Option<S>, ms: seq<M>, k: nat, s: S)
    requires k < |ms| && AllCommute(step, ms)
    ensures Fold(step, ms, s) == Fold(step, [ms[k]] + (ms[..k] + ms[k + 1..]), s)
    decreases k
  {
    var others := ms[..k] + ms[k + 1..];
    if k == 0 {
      assert [ms[0]] + others == ms;
    } else {
      var tail := ms[1..];
      assert forall a :: a in tail ==> a in ms;
      assert tail[k - 1] == ms[k] && tail[..k - 1] + tail[k..] == others[1..] && others[0] == ms[0];
      assert [ms[0]] + tail == ms && [ms[0]] + others[1..] == others;
      FoldFirst(step, ms[0], tail, s);
      if step(ms[0], s).Some? {
        MoveToFront(step, tail, k - 1, step(ms[0], s).value);
      }
      FoldFirst(step, ms[0], [ms[k]] + others[1..], s);
      SwapFirst(step, ms[0], ms[k], others[1..], s);
    }
  }

  lemma Without<M>(ms: seq<M>, k: nat)
    requires k < |ms|
    ensures multiset(ms[..k] + ms[k + 1..]) == multiset(ms) - multiset{ms[k]}
  {
    assert ms == ms[..k] + ([ms[k]] + ms[k + 1..]);
  }

  /** The order of commuting steps does not matter. */
  lemma {:induction false} OrderIsIrrelevant<M(!new), S(!new)>(step: (M, S) -> Option<S>, ms: seq<M>, ms': seq<M>, s: S)
    requires multiset(ms) == multiset(ms') && AllCommute(step, ms)
    ensures Fold(step, ms, s) == Fold(step, ms', s)
    decreases |ms|
  {
    assert |multiset(ms)| == |ms| && |multiset(ms')| == |ms'|;
    SameElements(ms, ms');
    if ms != [] {
      var m, rest := ms[0], ms[1..];
      assert m in ms';
      var k :| 0 <= k < |ms'| && ms'[k] == m;
      var others := ms'[..k] + ms'[k + 1..];
      Without(ms', k);
      Without(ms, 0);
      assert ms[..0] + ms[1..] == rest && ms == [m] + rest;
      MoveToFront(step, ms', k, s);
      FoldFirst(step, m, rest, s);
      FoldFirst(step, m, others, s);
      if step(m, s).Some? {
        assert forall a :: a in rest ==> a in ms;
        OrderIsIrrelevant(step, rest, others, step(m, s).value);
      }
    }
  }

  lemma SameElements<M(!new)>(ms: seq<M>, ms': seq<M>)
    requires multiset(ms) == multiset(ms')
    ensures forall a :: a in ms <==> a in ms'
  {
    forall a
      ensures a in ms <==> a in ms'
    {
      assert a in ms <==> a in multiset(ms);
      assert a in ms' <==> a in multiset(ms');
    }
  }
}
