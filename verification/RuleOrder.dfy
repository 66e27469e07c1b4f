/**
 Where the targets part: ordering a NaN. Go and Python compare natively, Rust
 fails, Dart and Swift fall through a three-way comparison to 1, the reference
 evaluator falls through to 0. Everywhere else they agree.
 */
module RuleOrder {

  import opened Wrappers
  import opened RuleLang
  import opened RuleEval
  import opened RuleTypes
  import opened RuleNative
  import opened RuleAgree

  predicate IsOrdering(cmp: CmpOp) {
    !cmp.Eq? && !cmp.Ne?
  }

  /** Dart and Swift. */
  function ThreeWay(x: Double, y: Double): int {
    if DblLess(x, y) then -1 else if DblEqual(x, y) then 0 else 1
  }

  /** The reference evaluator. */
  function ReferenceThreeWay(x: Double, y: Double): int {
    if DblLess(x, y) then -1 else if DblLess(y, x) then 1 else 0
  }

  predicate SignTest(cmp: CmpOp, sign: int) {
    match cmp
    case Eq => sign == 0
    case Ne => sign != 0
    case Lt => sign < 0
    case Le => sign <= 0
    case Gt => sign > 0
    case Ge => sign >= 0
  }

  function NativeOrder(cmp: CmpOp, x: Double, y: Double): GoOutcome {
    GoOrder(cmp, GFloat64(x), GFloat64(y))
  }

  function RustOrder(cmp: CmpOp, x: Double, y: Double): Outcome {
    BoolOutcome(CompareValues(cmp, VDbl(x), VDbl(y)))
  }

  /** Native code and the Rust evaluator agree on an ordering exactly when neither
      operand is NaN. */
  lemma NativeAgreesWithRust(cmp: CmpOp, x: Double, y: Double)
    requires IsOrdering(cmp)
    ensures Agree(NativeOrder(cmp, x, y), RustOrder(cmp, x, y)) <==> !x.NaN? && !y.NaN?
  {
    assert cmp.Lt? || cmp.Le? || cmp.Gt? || cmp.Ge?;
  }

  /** Native code and the Dart and Swift evaluators agree except on `>` and `>=`
      with a NaN. */
  lemma NativeAgreesWithThreeWay(cmp: CmpOp, x: Double, y: Double)
    requires IsOrdering(cmp)
    ensures NativeOrder(cmp, x, y) == Ok(GBool(SignTest(cmp, ThreeWay(x, y)))) <==> (!x.NaN? && !y.NaN?) || cmp.Lt? || cmp.Le?
  {
  }

  /** Native code and the reference evaluator agree except on `<=` and `>=` with a NaN. */
  lemma NativeAgreesWithReference(cmp: CmpOp, x: Double, y: Double)
    requires IsOrdering(cmp)
    ensures NativeOrder(cmp, x, y) == Ok(GBool(SignTest(cmp, ReferenceThreeWay(x, y)))) <==> (!x.NaN? && !y.NaN?) || cmp.Lt? || cmp.Gt?
  {
  }

  // ---- a rule with two verdicts -------------------------------------------

  const PRICE := Field("price", FScalar(SFloat64), false, false)
  const SHOP: Schema := map["Offer" := [PRICE]]

  const RULE_SITE := Site("Offer", None)
  const PRICE_READ := Un(Select(PRICE), Ident("self"))
  const CHEAP := Bin(Compare(Lt), PRICE_READ, Const(DblLit(Fin(1.0))))

  /** `!(self.price < 1.0)` */
  const NOT_CHEAP := Un(Not, CHEAP)

  function Offer(price: Double): GoVal {
    GRef(Some(GStruct(map["price" := GFloat64(price)])))
  }

  function OnOffer(rt: Platform, price: Double): Setting {
    Setting(rt, Limits(SHOP, true), RULE_SITE, [], Offer(price), map[], [])
  }

  lemma NotCheapTypeChecks()
    ensures CheckedRule(SHOP, RULE_SITE, NOT_CHEAP)
  {
    assert PRICE in SHOP["Offer"];
    assert Find(Names([]), "self") == None;
    assert Infer(SHOP, RULE_SITE, [], Ident("self")) == Some(TMsg("Offer"));
    assert Infer(SHOP, RULE_SITE, [], PRICE_READ) == Some(TDouble);
    assert Infer(SHOP, RULE_SITE, [], CHEAP) == Some(TBool);
  }

  lemma NativePriceRead(rt: Platform, price: Double)
    ensures OnOffer(rt, price).Native(PRICE_READ) == Ok(GFloat64(price))
  {
    var e := OnOffer(rt, price);
    assert Names([]) == [] && Find([], "self") == None;
    assert e.Native(Ident("self")) == Ok(Offer(price));
    assert [ReadField(PRICE)][1..] == [];
    assert RunUn(rt, ReadField(PRICE), Offer(price)) == Ok(GFloat64(price));
    assert RunCalls(rt, [ReadField(PRICE)], Offer(price)) == RunUn(rt, ReadField(PRICE), Offer(price));
  }

  lemma TreePriceRead(rt: Platform, price: Double)
    ensures OnOffer(rt, price).Tree(PRICE_READ) == Ok(VDbl(price))
  {
    var e := OnOffer(rt, price);
    assert Names([]) == [] && Find([], "self") == None;
    assert e.Tree(Ident("self")) == Ok(Conv(Offer(price)));
    var fields := map["price" := GFloat64(price)];
    assert Conv(GStruct(fields)) == VMsg(map k | k in fields && fields[k] != GRef(None) :: Conv(fields[k]));
    assert Conv(Offer(price)) == Conv(GStruct(fields));
    assert DoSelect(Conv(Offer(price)), "price", ZeroFor(PRICE)) == Ok(VDbl(price));
  }

  lemma NativeNotCheap(rt: Platform, price: Double)
    ensures OnOffer(rt, price).Native(NOT_CHEAP) == Ok(GBool(!DblLess(price, Fin(1.0))))
  {
    var e := OnOffer(rt, price);
    NativePriceRead(rt, price);
    BinRuns(e, Compare(Lt), PRICE_READ, Const(DblLit(Fin(1.0))));
    assert e.Native(Const(DblLit(Fin(1.0)))) == Ok(GFloat64(Fin(1.0)));
    assert e.Native(CHEAP) == NativeOrder(Lt, price, Fin(1.0));
    assert [Bang][1..] == [];
    assert RunCalls(rt, [Bang], e.Native(CHEAP).value) == RunUn(rt, Bang, e.Native(CHEAP).value);
  }

  lemma TreeCheap(rt: Platform, price: Double)
    ensures OnOffer(rt, price).Tree(CHEAP) == RustOrder(Lt, price, Fin(1.0))
  {
    var e := OnOffer(rt, price);
    TreePriceRead(rt, price);
    assert e.Tree(Const(DblLit(Fin(1.0)))) == Ok(VDbl(Fin(1.0)));
    TreeBin(e, Compare(Lt), PRICE_READ, Const(DblLit(Fin(1.0))));
  }

  lemma TreeNotCheap(rt: Platform, price: Double)
    ensures OnOffer(rt, price).Tree(NOT_CHEAP) == if price.NaN? then Err(Unordered) else Ok(VBool(!DblLess(price, Fin(1.0))))
  {
    var e := OnOffer(rt, price);
    TreeCheap(rt, price);
    TreeUn(e, Not, CHEAP);
  }

  /** The rule type checks. Compiled natively it accepts a NaN price; the Rust
      evaluator rejects it. On every other price they give one verdict. */
  lemma NotCheapVerdicts(rt: Platform, price: Double)
    ensures CheckedRule(SHOP, RULE_SITE, NOT_CHEAP)
    ensures
      GoHolds(rt, Compile(RULE_SITE, [], NOT_CHEAP), Offer(price)) == Ok(Holds(rt, Lower(RULE_SITE, [], NOT_CHEAP), Conv(Offer(price))))
      <==> !price.NaN?
  {
    NotCheapTypeChecks();
    NativeNotCheap(rt, price);
    TreeNotCheap(rt, price);
    assert Names([]) == [];
  }
}
