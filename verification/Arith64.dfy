/**
 Checked 64-bit integer arithmetic, in the form each target writes it, against
 one meaning: the exact truncating result when it fits in 64 bits.

 Go and Dart compute a wrapped result and look for signs of overflow; Python
 computes exactly and checks the range; Rust and Swift use checked operations,
 which are the meaning itself.
 */
module Arith64 {

  import opened Wrappers

  const MIN := -0x8000_0000_0000_0000
  const MAX := 0x7FFF_FFFF_FFFF_FFFF
  const SPAN := 0x1_0000_0000_0000_0000

  predicate Fits(x: int) {
    MIN <= x <= MAX
  }

  /** Two's complement wrap-around to 64 bits. */
  function Wrap(x: int): (r: int)
    ensures Fits(r) && (r - x) % SPAN == 0
    ensures Fits(x) ==> r == x
  {
    (x - MIN) % SPAN + MIN
  }

  function Abs(x: int): nat {
    if x < 0 then -x else x
  }

  /** Division rounding toward zero; Dafny's own rounds the remainder to be non-negative. */
  function Quot(a: int, b: int): int
    requires b != 0
  {
    if (a < 0) == (b < 0) then Abs(a) / Abs(b) else -(Abs(a) / Abs(b))
  }

  /** The remainder that goes with it: it has the dividend's sign. */
  function Rem(a: int, b: int): int
    requires b != 0
  {
    if a < 0 then -(Abs(a) % Abs(b)) else Abs(a) % Abs(b)
  }

  lemma QuotRem(a: int, b: int)
    requires b != 0
    ensures a == Quot(a, b) * b + Rem(a, b) && Abs(Rem(a, b)) < Abs(b)
    ensures Rem(a, b) != 0 ==> (Rem(a, b) < 0 <==> a < 0)
  {
    assert Abs(a) == (Abs(a) / Abs(b)) * Abs(b) + Abs(a) % Abs(b);
  }

  // ---- the meaning --------------------------------------------------------

  datatype IntOp = Add | Sub | Mul | Div | Mod

  datatype ArithFail = Overflow | DivisionByZero

  function Checked(x: int): Result<int, ArithFail> {
    if Fits(x) then Ok(x) else Err(Overflow)
  }

  /** What every target promises: exact, truncating, checked. The remainder of
      the one division whose quotient does not fit is an overflow too. */
  function Eval(op: IntOp, a: int, b: int): Result<int, ArithFail> {
    match op
    case Add => Checked(a + b)
    case Sub => Checked(a - b)
    case Mul => Checked(a * b)
    case Div => if b == 0 then Err(DivisionByZero) else Checked(Quot(a, b))
    case Mod => if b == 0 then Err(DivisionByZero) else if Fits(Quot(a, b)) then Ok(Rem(a, b)) else Err(Overflow)
  }

  function Negate(a: int): Result<int, ArithFail> {
    Checked(-a)
  }

  // ---- Go -----------------------------------------------------------------

  /** Go's native division: truncating, and wrapping for the one quotient that does not fit. */
  function GoQuot(a: int, b: int): int
    requires b != 0
  {
    Wrap(Quot(a, b))
  }

  function GoAdd(a: int, b: int): Result<int, ArithFail> {
    var sum := Wrap(a + b);
    if (sum > a) != (b > 0) then Err(Overflow) else Ok(sum)
  }

  function GoSub(a: int, b: int): Result<int, ArithFail> {
    var diff := Wrap(a - b);
    if (diff < a) != (b > 0) then Err(Overflow) else Ok(diff)
  }

  function GoMul(a: int, b: int): Result<int, ArithFail> {
    if a == 0 || b == 0 then Ok(0)
    else
      var product := Wrap(a * b);
      if GoQuot(product, b) != a || (a == MIN && b == -1) || (b == MIN && a == -1) then Err(Overflow) else Ok(product)
  }

  function GoDiv(a: int, b: int): Result<int, ArithFail> {
    if b == 0 then Err(DivisionByZero) else if a == MIN && b == -1 then Err(Overflow) else Ok(GoQuot(a, b))
  }

  function GoMod(a: int, b: int): Result<int, ArithFail> {
    if b == 0 then Err(DivisionByZero) else if a == MIN && b == -1 then Err(Overflow) else Ok(Rem(a, b))
  }

  function GoNeg(a: int): Result<int, ArithFail> {
    if a == MIN then Err(Overflow) else Ok(Wrap(-a))
  }

  function GoEval(op: IntOp, a: int, b: int): Result<int, ArithFail> {
    match op
    case Add => GoAdd(a, b)
    case Sub => GoSub(a, b)
    case Mul => GoMul(a, b)
    case Div => GoDiv(a, b)
    case Mod => GoMod(a, b)
  }

  // ---- Dart ---------------------------------------------------------------

  function DartAdd(a: int, b: int): Result<int, ArithFail> {
    var r := Wrap(a + b);
    if (b > 0 && r < a) || (b < 0 && r > a) then Err(Overflow) else Ok(r)
  }

  function DartSub(a: int, b: int): Result<int, ArithFail> {
    var r := Wrap(a - b);
    if (b > 0 && r > a) || (b < 0 && r < a) then Err(Overflow) else Ok(r)
  }

  function DartMul(a: int, b: int): Result<int, ArithFail> {
    if a == 0 || b == 0 then Ok(0)
    else if (a == MIN && b == -1) || (b == MIN && a == -1) then Err(Overflow)
    else
      var r := Wrap(a * b);
      if GoQuot(r, b) != a then Err(Overflow) else Ok(r)
  }

  function DartEval(op: IntOp, a: int, b: int): Result<int, ArithFail> {
    match op
    case Add => DartAdd(a, b)
    case Sub => DartSub(a, b)
    case Mul => DartMul(a, b)
    case Div => GoDiv(a, b)
    case Mod => GoMod(a, b)
  }

  // ---- Python -------------------------------------------------------------

  function PyDiv(a: int, b: int): Result<int, ArithFail> {
    if b == 0 then Err(DivisionByZero)
    else
      var q := Abs(a) / Abs(b);
      Checked(if (a < 0) == (b < 0) then q else -q)
  }

  function PyMod(a: int, b: int): Result<int, ArithFail> {
    if b == 0 then Err(DivisionByZero)
    else if a == MIN && b == -1 then Err(Overflow)
    else
      var r := Abs(a) % Abs(b);
      Ok(if a >= 0 then r else -r)
  }

  function PyEval(op: IntOp, a: int, b: int): Result<int, ArithFail> {
    match op
    case Add => Checked(a + b)
    case Sub => Checked(a - b)
    case Mul => Checked(a * b)
    case Div => PyDiv(a, b)
    case Mod => PyMod(a, b)
  }

  // ---- they agree ---------------------------------------------------------

  lemma MulMonotone(a: nat, b: nat, c: nat)
    requires b <= c
    ensures a * b <= a * c
  {
  }

  /** The quotient of two 64-bit integers fits, but for MIN / -1. */
  lemma QuotFits(a: int, b: int)
    requires Fits(a) && Fits(b) && b != 0
    ensures Fits(Quot(a, b)) <==> !(a == MIN && b == -1)
  {
    var q := Abs(a) / Abs(b);
    assert q <= Abs(a) by {
      MulMonotone(q, 1, Abs(b));
      assert q * Abs(b) <= Abs(a);
    }
    if Abs(a) == -MIN && Abs(b) >= 2 {
      MulMonotone(q, 2, Abs(b));
      assert q * Abs(b) <= Abs(a);
    }
  }

  /** Dividing an exact product gives the other factor back. */
  lemma QuotOfProduct(a: int, b: int)
    requires b != 0
    ensures Quot(a * b, b) == a
  {
    QuotRem(a * b, b);
    var d := a - Quot(a * b, b);
    assert d * b == Rem(a * b, b);
    if d != 0 {
      assert Abs(d * b) == Abs(d) * Abs(b);
      MulMonotone(Abs(b), 1, Abs(d));
    }
  }

  /** The heart of the check: dividing the wrapped product by one factor gives
      the other exactly when nothing was wrapped away. */
  lemma WrappedProductCheck(a: int, b: int)
    requires Fits(a) && Fits(b) && a != 0 && b != 0
    ensures Quot(Wrap(a * b), b) == a <==> Fits(a * b)
  {
    if Fits(a * b) {
      QuotOfProduct(a, b);
    }
    QuotRem(Wrap(a * b), b);
  }

  lemma GoMulAgrees(a: int, b: int)
    requires Fits(a) && Fits(b)
    ensures GoMul(a, b) == Eval(Mul, a, b) == DartMul(a, b)
  {
    if a != 0 && b != 0 {
      WrappedProductCheck(a, b);
      QuotFits(Wrap(a * b), b);
    }
  }

  lemma AddSubAgree(a: int, b: int)
    requires Fits(a) && Fits(b)
    ensures GoAdd(a, b) == DartAdd(a, b) == Checked(a + b)
    ensures GoSub(a, b) == DartSub(a, b) == Checked(a - b)
  {
    assert Wrap(a + b) == a + b || Wrap(a + b) == a + b - SPAN || Wrap(a + b) == a + b + SPAN;
    assert Wrap(a - b) == a - b || Wrap(a - b) == a - b - SPAN || Wrap(a - b) == a - b + SPAN;
  }

  lemma DivModAgree(a: int, b: int)
    requires Fits(a) && Fits(b)
    ensures GoDiv(a, b) == PyDiv(a, b) == Eval(Div, a, b)
    ensures GoMod(a, b) == PyMod(a, b) == Eval(Mod, a, b)
    ensures b != 0 ==> Fits(Rem(a, b))
  {
    if b != 0 {
      QuotFits(a, b);
      QuotRem(a, b);
    }
  }

  /** Every target accepts the same operands and returns the same result, for
      every operator and all 64-bit operands; negation too. */
  lemma TargetsAgree(op: IntOp, a: int, b: int)
    requires Fits(a) && Fits(b)
    ensures GoEval(op, a, b) == Eval(op, a, b)
    ensures DartEval(op, a, b) == Eval(op, a, b)
    ensures PyEval(op, a, b) == Eval(op, a, b)
    ensures GoNeg(a) == Negate(a)
    ensures Eval(op, a, b).Ok? ==> Fits(Eval(op, a, b).value)
  {
    match op
    case Add => AddSubAgree(a, b);
    case Sub => AddSubAgree(a, b);
    case Mul => GoMulAgrees(a, b);
    case Div => DivModAgree(a, b);
    case Mod => DivModAgree(a, b);
  }
}
