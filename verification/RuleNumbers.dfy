/**
 The operations both sides of a rule share, said by what they are: the order of
 doubles, truncation, which arithmetic yields a value, and the three string tests.
 */
module RuleNumbers {

  import opened Wrappers
  import opened Arith64
  import opened RuleLang
  import opened RuleEval

  // ---- doubles ------------------------------------------------------------

  /** The order of the reals between the infinities; NaN stands in no order. */
  lemma OrderOfDoubles(x: Double, y: Double)
    ensures x.NaN? || y.NaN? ==> !DblLess(x, y) && !DblEqual(x, y)
    ensures x.Fin? && y.Fin? ==> (DblLess(x, y) <==> x.r < y.r) && (DblEqual(x, y) <==> x.r == y.r)
    ensures !x.NaN? && !y.NaN? ==> (DblLess(x, y) || DblEqual(x, y) || DblLess(y, x))
    ensures !x.NaN? && !y.NaN? ==> !(DblLess(x, y) && DblLess(y, x)) && !(DblEqual(x, y) && (DblLess(x, y) || DblLess(y, x)))
    ensures DblLess(x, PosInf) <==> x.Fin? || x.NegInf?
    ensures DblLess(NegInf, x) <==> x.Fin? || x.PosInf?
    ensures DblEqual(PosInf, x) <==> x.PosInf?
    ensures DblEqual(NegInf, x) <==> x.NegInf?
  {
  }

  lemma OrderIsTransitive(x: Double, y: Double, z: Double)
    requires DblLess(x, y) && DblLess(y, z)
    ensures DblLess(x, z)
  {
  }

  /** Toward zero, by less than one. */
  lemma TruncatesTowardZero(r: real)
    ensures r >= 0.0 ==> 0.0 <= Truncate(r) as real <= r < Truncate(r) as real + 1.0
    ensures r <= 0.0 ==> Truncate(r) as real - 1.0 < r <= Truncate(r) as real <= 0.0
  {
  }

  /** A whole number converts iff it fits in 64 bits; nothing that is not finite does. */
  lemma ConvertsIfItFits(x: Double, i: int)
    ensures IntSized(x) ==> x.Fin? && Fits(Truncate(x.r))
    ensures x == Fin(i as real) ==> (IntSized(x) <==> Fits(i)) && Truncate(x.r) == i
  {
  }

  lemma NegationOfDoubles(x: Double, y: Double)
    ensures NegDouble(NegDouble(x)) == x
    ensures x.Fin? ==> NegDouble(x) == Fin(-x.r)
    ensures x.NaN? <==> NegDouble(x).NaN?
    ensures DblLess(x, y) <==> DblLess(NegDouble(y), NegDouble(x))
  {
  }

  function Exact(op: DblOp, a: real, b: real): real
    requires op.FDiv? ==> b != 0.0
  {
    match op
    case FAdd => a + b
    case FSub => a - b
    case FMul => a * b
    case FDiv => a / b
  }

  /** Arithmetic yields a value in two cases: on finite operands the rounded exact
      result, where that is finite and nothing is divided by zero; and zero for a finite
      number divided by an infinite one. */
  lemma ArithmeticExactly(rt: Platform, op: DblOp, x: Double, y: Double, d: Double)
    ensures DoArithDbl(rt, op, x, y) == Ok(VDbl(d))
       <==> d.Fin?
            && ((x.Fin? && y.Fin? && !(op.FDiv? && y.r == 0.0) && d == rt.round(Exact(op, x.r, y.r)))
                || (op.FDiv? && x.Fin? && (y.PosInf? || y.NegInf?) && d == Fin(0.0)))
  {
    if op.FDiv? && IsZero(y) {
      assert DoArithDbl(rt, op, x, y) == Err(Arithmetic(DivisionByZero));
    } else if x.Fin? && y.Fin? {
      FiniteExactly(rt, op, x, y);
    } else if !(op.FDiv? && x.Fin? && !y.NaN?) {
      assert !DblArith(rt, op, x, y).Fin?;
    }
  }

  lemma FiniteExactly(rt: Platform, op: DblOp, x: Double, y: Double)
    requires x.Fin? && y.Fin? && (op.FDiv? ==> y.r != 0.0)
    ensures DblArith(rt, op, x, y) == rt.round(Exact(op, x.r, y.r))
  {
    match op
    case FAdd =>
    case FSub =>
    case FMul => ProductExactly(rt, x, y, Exact(FMul, x.r, y.r));
    case FDiv =>
  }

  lemma ProductExactly(rt: Platform, x: Double, y: Double, p: real)
    requires x.Fin? && y.Fin? && p == x.r * y.r
    ensures DblArith(rt, FMul, x, y) == rt.round(p)
  {
  }

  /** Infinities, before arithmetic refuses them: opposite ones cancel to no number,
      products and quotients have the sign of their operands. */
  lemma InfinitiesFollowSigns(rt: Platform, x: Double)
    ensures DblArith(rt, FAdd, PosInf, NegInf).NaN? && DblArith(rt, FSub, PosInf, PosInf).NaN?
    ensures x.Fin? ==> DblArith(rt, FAdd, x, NegInf) == NegInf && DblArith(rt, FSub, x, NegInf) == PosInf
    ensures x.Fin? ==> DblArith(rt, FAdd, PosInf, x) == DblArith(rt, FSub, PosInf, x) == PosInf
    ensures x.Fin? && x.r > 0.0 ==> DblArith(rt, FMul, PosInf, x) == PosInf && DblArith(rt, FMul, x, NegInf) == NegInf
    ensures x.Fin? && x.r < 0.0 ==> DblArith(rt, FMul, PosInf, x) == NegInf && DblArith(rt, FMul, x, NegInf) == PosInf
    ensures x.Fin? ==> DblArith(rt, FDiv, PosInf, x) == if x.r < 0.0 then NegInf else PosInf
    ensures DblArith(rt, FMul, PosInf, Fin(0.0)).NaN? && DblArith(rt, FDiv, PosInf, NegInf).NaN?
  {
  }

  // ---- strings ------------------------------------------------------------

  /** A prefix, a suffix, and a part of a string. */
  lemma StringTestsExactly(a: string, b: string)
    ensures StrHolds(StartsWith, a, b) <==> exists w :: a == b + w
    ensures StrHolds(EndsWith, a, b) <==> exists u :: a == u + b
    ensures StrHolds(Contains, a, b) <==> exists u, w :: a == u + b + w
  {
    PrefixExactly(a, b);
    SuffixExactly(a, b);
    PartExactly(a, b);
  }

  lemma PrefixExactly(a: string, b: string)
    ensures StrHolds(StartsWith, a, b) <==> exists w :: a == b + w
  {
    if StrHolds(StartsWith, a, b) {
      assert a == b + a[|b|..];
    }
  }

  lemma SuffixExactly(a: string, b: string)
    ensures StrHolds(EndsWith, a, b) <==> exists u :: a == u + b
  {
    if StrHolds(EndsWith, a, b) {
      assert a == a[..|a| - |b|] + b;
    }
  }

  lemma PartExactly(a: string, b: string)
    ensures StrHolds(Contains, a, b) <==> exists u, w :: a == u + b + w
  {
    if StrHolds(Contains, a, b) {
      var i :| 0 <= i <= |a| - |b| && b <= a[i..];
      assert a == a[..i] + b + a[i + |b|..];
    }
    if exists u, w :: a == u + b + w {
      var u, w :| a == u + b + w;
      PartAt(u, b, w);
    }
  }

  lemma PartAt(u: string, b: string, w: string)
    ensures StrHolds(Contains, u + b + w, b)
  {
    assert b <= (u + b + w)[|u|..];
  }
}
