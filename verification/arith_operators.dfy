/** What the operators of arithmetic expansion (src/expand/arithmetic.rs) compute, as laws over all
    i64 values that tie them to each other and to the integers. */
module ArithOperators {
  import opened Wrappers
  import opened Int64
  import opened ArithSyntax
  import opened ArithSemantics

  // ----- Errors -----

  /** Only division fails: by zero, and where the quotient of the minimum has no i64. */
  lemma FailsExactly(op: BinOp, a: i64, b: i64)
    ensures ApplyBinary(op, a, b).Ok? <==> !((op.Div? || op.Rem?) && (b == 0 || (a == MIN && b == -1)))
    ensures ApplyBinary(op, a, b) == Err(DivisionByZero) <==> (op.Div? || op.Rem?) && b == 0
  {
  }

  /** The result of an operator that cannot fail. */
  function Of(op: BinOp, a: i64, b: i64): i64
    requires !op.Div? && !op.Rem?
  {
    ApplyBinary(op, a, b).value
  }

  // ----- Addition, subtraction, multiplication -----

  const WIDTH: int := 0x1_0000_0000_0000_0000

  lemma WrapSheds(x: int) returns (q: int)
    ensures x == Wrap(x) + q * WIDTH
  {
    q := (x - MIN) / WIDTH;
  }

  /** There is one i64 in each residue class. */
  lemma WrapIs(x: int, r: i64, q: int)
    requires x == r + q * WIDTH
    ensures Wrap(x) == r
  {
    var p := WrapSheds(x);
    assert Wrap(x) - r == (q - p) * WIDTH;
  }

  lemma WrapSum(x: int, y: int)
    ensures Wrap(Wrap(x) + y) == Wrap(x + y)
  {
    var q := WrapSheds(x);
    var p := WrapSheds(Wrap(x) + y);
    WrapIs(x + y, Wrap(Wrap(x) + y), p + q);
  }

  lemma WrapProduct(x: int, y: int)
    ensures Wrap(Wrap(x) * y) == Wrap(x * y)
  {
    var q := WrapSheds(x);
    var p := WrapSheds(Wrap(x) * y);
    assert x * y == Wrap(x) * y + q * y * WIDTH;
    WrapIs(x * y, Wrap(Wrap(x) * y), p + q * y);
  }

  /** Addition counts on from the first operand, around the ends of the range. */
  lemma AdditionLaws(a: i64, b: i64, c: i64)
    ensures Of(Add, a, 0) == a
    ensures Of(Add, a, 1) == if a < MAX then a + 1 else MIN
    ensures Of(Add, a, b) == Of(Add, b, a)
    ensures Of(Add, Of(Add, a, b), c) == Of(Add, a, Of(Add, b, c))
  {
    hide Wrap;
    WrapIs(MAX + 1, MIN, 1);
    WrapSum(a + b, c);
    WrapSum(b + c, a);
  }

  lemma SubtractionUndoesAddition(a: i64, b: i64)
    ensures Of(Add, Of(Sub, a, b), b) == a
    ensures Of(Sub, Of(Add, a, b), b) == a
  {
    hide Wrap;
    var y: int := b;
    WrapSum(a - b, y);
    WrapSum(a + b, 0 - y);
  }

  lemma MultiplicationLaws(a: i64, b: i64, c: i64)
    ensures Of(Mul, a, 0) == 0
    ensures Of(Mul, a, 1) == a
    ensures Of(Mul, a, b) == Of(Mul, b, a)
    ensures Of(Mul, a, Of(Add, b, c)) == Of(Add, Of(Mul, a, b), Of(Mul, a, c))
  {
    ProductOfSum(a, b, c);
  }

  lemma ProductOfSum(a: int, b: int, c: int)
    ensures Wrap(a * Wrap(b + c)) == Wrap(Wrap(a * b) + Wrap(a * c))
  {
    hide Wrap;
    var w: int := Wrap(b + c);
    Commutes(a, w);
    WrapProduct(b + c, a);
    Expands(a, b, c);
    WrapSum(a * b, Wrap(a * c));
    WrapSum(a * c, a * b);
  }

  lemma Commutes(a: int, w: int)
    ensures a * w == w * a
  {
  }

  lemma Expands(a: int, b: int, c: int)
    ensures (b + c) * a == a * b + a * c
  {
  }

  // ----- Division -----

  /** Where division succeeds, quotient and remainder make up the dividend; the remainder is
      smaller than the divisor and has the sign of the dividend. */
  lemma DivisionLaws(a: i64, b: i64, q: i64, r: i64)
    requires ApplyBinary(Div, a, b) == Ok(q) && ApplyBinary(Rem, a, b) == Ok(r)
    ensures a == q * b + r && Of(Add, Of(Mul, q, b), r) == a
    ensures Magnitude(r) < Magnitude(b)
    ensures (a >= 0 ==> r >= 0) && (a <= 0 ==> r <= 0)
  {
    hide Wrap, TruncDiv, TruncRem;
    RemainderSign(a, b);
    TruncatingIdentity(a, b);
    hide ApplyBinary;
    ProductThenSum(q, b, r, a);
  }

  lemma RemainderSign(a: int, b: int)
    requires b != 0
    ensures (a >= 0 ==> TruncRem(a, b) >= 0) && (a <= 0 ==> TruncRem(a, b) <= 0)
  {
  }

  lemma ProductThenSum(q: i64, b: i64, r: i64, a: i64)
    requires a == q * b + r
    ensures Of(Add, Of(Mul, q, b), r) == a
  {
    hide Wrap;
    WrapSum(q * b, r);
  }

  // ----- Comparison -----

  /** Lt is a strict order, in which each number comes before its successor, and the other five
      comparisons follow from it. Every comparison gives 0 or 1. */
  lemma ComparisonLaws(a: i64, b: i64, c: i64)
    ensures Of(Lt, a, b) + Of(Eq, a, b) + Of(Gt, a, b) == 1
    ensures forall op | op in {Lt, Eq, Gt} :: Of(op, a, b) in {0, 1}
    ensures a < MAX ==> Of(Lt, a, Of(Add, a, 1)) == 1
    ensures Of(Lt, a, b) == 1 && Of(Lt, b, c) == 1 ==> Of(Lt, a, c) == 1
    ensures Of(Eq, a, b) == 1 <==> a == b
    ensures Of(Gt, a, b) == Of(Lt, b, a)
    ensures Of(Le, a, b) == ApplyUnary(Not, Of(Gt, a, b))
    ensures Of(Ge, a, b) == Of(Le, b, a)
    ensures Of(Ne, a, b) == ApplyUnary(Not, Of(Eq, a, b))
  {
    AdditionLaws(a, b, c);
  }

  // ----- Bits -----

  lemma {:induction false} AndOrSum(a: int, b: int, n: nat)
    requires -Pow2(n) <= a < Pow2(n) && -Pow2(n) <= b < Pow2(n)
    ensures Bitwise(BitAnd, a, b, n) + Bitwise(BitOr, a, b, n) == a + b
    ensures Bitwise(BitXor, a, b, n) == Bitwise(BitOr, a, b, n) - Bitwise(BitAnd, a, b, n)
    decreases n
  {
    if n > 0 {
      AndOrSum(a / 2, b / 2, n - 1);
    }
  }

  lemma {:induction false} BitUnits(a: int, n: nat)
    requires -Pow2(n) <= a < Pow2(n)
    ensures Bitwise(BitAnd, a, 0, n) == 0 && Bitwise(BitAnd, a, -1, n) == a && Bitwise(BitAnd, a, a, n) == a
    decreases n
  {
    if n > 0 {
      BitUnits(a / 2, n - 1);
    }
  }

  /** The same for the bits of an i64. */
  lemma I64Bits(a: i64, b: i64)
    ensures BitwiseI64(BitAnd, a, b) + BitwiseI64(BitOr, a, b) == a + b
    ensures BitwiseI64(BitXor, a, b) == BitwiseI64(BitOr, a, b) - BitwiseI64(BitAnd, a, b)
    ensures BitwiseI64(BitAnd, a, 0) == 0 && BitwiseI64(BitAnd, a, -1) == a && BitwiseI64(BitAnd, a, a) == a
  {
    hide Bitwise;
    Pow2Of63();
    hide Pow2;
    AndOrSum(a, b, 63);
    BitUnits(a, 63);
  }

  /** Conjunction and disjunction share out the sum; exclusive disjunction is their difference;
      0 and -1 are the units. */
  lemma BitLaws(a: i64, b: i64)
    ensures Of(Add, Of(BAnd, a, b), Of(BOr, a, b)) == Of(Add, a, b)
    ensures Of(BXor, a, b) == Of(Sub, Of(BOr, a, b), Of(BAnd, a, b))
    ensures Of(BAnd, a, 0) == 0 && Of(BAnd, a, -1) == a && Of(BAnd, a, a) == a
    ensures Of(BOr, a, 0) == a && Of(BOr, a, -1) == -1 && Of(BOr, a, a) == a
    ensures Of(BXor, a, 0) == a && Of(BXor, a, -1) == ApplyUnary(Complement, a) && Of(BXor, a, a) == 0
  {
    hide BitwiseI64;
    I64Bits(a, b);
    I64Bits(a, 0);
    I64Bits(a, -1);
    I64Bits(a, a);
  }

  lemma BitwiseUnfolds(op: BitOperator, a: int, b: int, n: nat)
    requires n > 0 && -Pow2(n) <= a < Pow2(n) && -Pow2(n) <= b < Pow2(n)
    ensures -Pow2(n - 1) <= a / 2 < Pow2(n - 1) && -Pow2(n - 1) <= b / 2 < Pow2(n - 1)
    ensures Bitwise(op, a, b, n)
         == 2 * Bitwise(op, a / 2, b / 2, n - 1) + (if BitOf(op, a % 2 == 1, b % 2 == 1) then 1 else 0)
  {
  }

  /** One sign bit more does not matter. */
  lemma {:induction false} BitwiseWidens(op: BitOperator, a: int, b: int, n: nat)
    requires -Pow2(n) <= a < Pow2(n) && -Pow2(n) <= b < Pow2(n)
    ensures -Pow2(n + 1) <= a < Pow2(n + 1) && -Pow2(n + 1) <= b < Pow2(n + 1)
    ensures Bitwise(op, a, b, n + 1) == Bitwise(op, a, b, n)
    decreases n
  {
    assert Pow2(n + 1) == 2 * Pow2(n);
    BitwiseUnfolds(op, a, b, n + 1);
    if n > 0 {
      hide Bitwise, Pow2, BitOf;
      BitwiseUnfolds(op, a, b, n);
      BitwiseWidens(op, a / 2, b / 2, n - 1);
    }
  }

  /** The lowest bit of a result, and the others. */
  lemma OneLevel(op: BitOperator, a: i64, b: i64)
    ensures BitwiseI64(op, a, b)
         == 2 * BitwiseI64(op, a / 2, b / 2) + (if BitOf(op, a % 2 == 1, b % 2 == 1) then 1 else 0)
  {
    hide Bitwise;
    Pow2Of63();
    assert Pow2(63) == 2 * Pow2(62);
    hide Pow2;
    BitwiseWidens(op, a / 2, b / 2, 62);
    BitwiseUnfolds(op, a, b, 63);
  }

  lemma SmallBits(op: BitOperator, x: bool, y: bool)
    ensures BitwiseI64(op, if x then 1 else 0, if y then 1 else 0) == if BitOf(op, x, y) then 1 else 0
    ensures BitwiseI64(op, 0, 0) == 0
  {
    hide BitwiseI64;
    OneLevel(op, 0, 0);
    OneLevel(op, if x then 1 else 0, if y then 1 else 0);
  }

  /** Bit by bit: conjunction with 1 is the lowest bit, the lowest bit of a result is that of the
      operands, and the other bits are those of the operands moved down by one. */
  lemma BitsAreIndependent(op: BinOp, a: i64, b: i64)
    requires op in {BAnd, BOr, BXor}
    ensures Of(BAnd, a, 1) == a % 2
    ensures Of(BAnd, Of(op, a, b), 1) == Of(op, Of(BAnd, a, 1), Of(BAnd, b, 1))
    ensures Of(Shr, Of(op, a, b), 1) == Of(op, Of(Shr, a, 1), Of(Shr, b, 1))
    ensures Of(BAnd, 1, 1) == 1 && Of(BAnd, 1, 0) == 0 && Of(BAnd, 0, 1) == 0 && Of(BAnd, 0, 0) == 0
  {
    hide BitwiseI64;
    var bit := match op case BAnd => BitAnd case BOr => BitOr case _ => BitXor;
    LowestBit(a);
    LowestBit(b);
    LowestBit(Of(op, a, b));
    OneLevel(bit, a, b);
    SmallBits(bit, a % 2 == 1, b % 2 == 1);
    SmallBits(BitAnd, true, true);
    SmallBits(BitAnd, true, false);
    SmallBits(BitAnd, false, true);
    assert Pow2(1) == 2;
  }

  lemma LowestBit(a: i64)
    ensures BitwiseI64(BitAnd, a, 1) == a % 2
  {
    hide BitwiseI64;
    OneLevel(BitAnd, a, 1);
    I64Bits(a / 2, 0);
  }

  // ----- Shifts -----

  /** A shift to the left by one doubles, one to the right halves, rounding down. */
  lemma ShiftByOne(a: i64)
    ensures Of(Shl, a, 0) == a && Of(Shr, a, 0) == a
    ensures Of(Shl, a, 1) == Of(Add, a, a)
    ensures Of(Shr, a, 1) + Of(Shr, a, 1) + a % 2 == a
  {
    hide Wrap;
    assert Pow2(1) == 2;
  }

  /** Longer shifts are repeated, up to a count of 63. */
  lemma ShiftAgain(a: i64, n: i64)
    requires 0 <= n < 63
    ensures Of(Shl, a, n + 1) == Of(Shl, Of(Shl, a, n), 1)
    ensures Of(Shr, a, n + 1) == Of(Shr, Of(Shr, a, n), 1)
  {
    hide Wrap;
    var k: nat := n;
    var p := Pow2(k);
    assert Pow2(k + 1) == 2 * p && Pow2(1) == 2;
    hide Pow2;
    WrapProduct(a * p, 2);
    assert a * (2 * p) == a * p * 2;
    HalvedAgain(a, p);
  }

  /** Only the count modulo 64 matters: a count of 64 does nothing. */
  lemma ShiftAround(a: i64, n: i64)
    requires n <= MAX - 64
    ensures Of(Shl, a, n + 64) == Of(Shl, a, n) && Of(Shr, a, n + 64) == Of(Shr, a, n)
  {
    assert (n + 64) % 64 == n % 64;
  }

  lemma HalvedAgain(a: int, p: int)
    requires p >= 1
    ensures a / (2 * p) == a / p / 2
  {
    var q, r := a / p, a % p;
    var h, s := q / 2, q % 2;
    assert a == q * p + r;
    assert q * p == 2 * h * p + s * p;
    assert h * (2 * p) == 2 * h * p;
    QuotientIs(a, 2 * p, h, s * p + r);
  }

  lemma QuotientIs(a: int, m: int, q: int, r: int)
    requires m >= 1 && a == q * m + r && 0 <= r < m
    ensures a / m == q
  {
    var d := a / m - q;
    assert d * m == a / m * m - q * m;
    AtLeastOne(d, m);
  }

  lemma AtLeastOne(d: int, m: int)
    requires m >= 1
    ensures d >= 1 ==> d * m >= m
    ensures d <= -1 ==> d * m <= -m
  {
    if d >= 1 {
      assert (d - 1) * m >= 0;
    } else if d <= -1 {
      assert (-1 - d) * m >= 0;
    }
  }

  // ----- Unary operators -----

  lemma UnaryLaws(v: i64)
    ensures ApplyUnary(Plus, v) == v
    ensures Of(Add, v, ApplyUnary(Minus, v)) == 0
    ensures ApplyUnary(Complement, v) == Of(Sub, ApplyUnary(Minus, v), 1)
    ensures ApplyUnary(Not, v) == Of(Eq, v, 0)
  {
    hide Wrap;
    WrapSum(0 - v, v);
    WrapSum(0 - v, -1);
  }

  // ----- Logical operators, conditionals and assignments, over all operands -----

  /** Twice negated: 1 for anything but 0. */
  function Normalised(e: Expr): Expr {
    Unary(Not, Unary(Not, e))
  }

  /** A conditional takes its first arm when the test is not 0. */
  lemma ConditionalTestsForNonZero(test: Expr, yes: Expr, no: Expr, cfg: Config, vars: Vars)
    ensures Lazy(Cond(test, Num(1), Num(0)), cfg, vars) == Lazy(Normalised(test), cfg, vars)
    ensures Lazy(Cond(Unary(Not, test), no, yes), cfg, vars) == Lazy(Cond(test, yes, no), cfg, vars)
  {
  }

  /** `l && r` is `l ? !!r : 0`, and `l || r` is `l ? 1 : !!r`. */
  lemma {:induction false} LogicalOperatorsAreConditionals(l: Expr, r: Expr, cfg: Config, vars: Vars)
    ensures Lazy(Infix(AndAlso, l, r), cfg, vars) == Lazy(Cond(l, Normalised(r), Num(0)), cfg, vars)
    ensures Lazy(Infix(OrElse, l, r), cfg, vars) == Lazy(Cond(l, Num(1), Normalised(r)), cfg, vars)
  {
    var left := Lazy(l, cfg, vars);
    NormalisedTests(r, cfg, left.vars);
    assert Lazy(Num(0), cfg, left.vars) == Outcome(Ok(0), left.vars);
    assert Lazy(Num(1), cfg, left.vars) == Outcome(Ok(1), left.vars);
  }

  lemma NormalisedTests(e: Expr, cfg: Config, vars: Vars)
    ensures var r := Lazy(e, cfg, vars);
            Lazy(Normalised(e), cfg, vars) == if r.value.Err? then r else Outcome(Ok(Truth(r.value.value != 0)), r.vars)
  {
    var r := Lazy(e, cfg, vars);
    assert Lazy(Unary(Not, e), cfg, vars) == if r.value.Err? then r else Outcome(Ok(Truth(r.value.value == 0)), r.vars);
  }

  /** An assignment that succeeds is worth its operand, which the variable then holds, but for the
      minimum, which cannot be read back. */
  lemma AssignmentIsReadBack(name: string, e: Expr, cfg: Config, vars: Vars)
    requires Lazy(Assign(name, Plain, e), cfg, vars).value.Ok?
    ensures var after := Lazy(Assign(name, Plain, e), cfg, vars);
            && after.value == Lazy(e, cfg, vars).value
            && (after.value.value != MIN ==> Lazy(Var(name), cfg, after.vars).value == after.value)
  {
    StoreThenResolve(name, Lazy(e, cfg, vars).value.value, cfg, Lazy(e, cfg, vars).vars);
  }

  /** `x op= e` is `x = x op e` for an operand that assigns nothing, unless both fail. */
  lemma CompoundAssignmentSpelledOut(name: string, op: BinOp, e: Expr, cfg: Config, vars: Vars)
    requires Lazy(e, cfg, vars).vars == vars
    ensures var short := Lazy(Assign(name, Compound(op), e), cfg, vars);
            var long := Lazy(Assign(name, Plain, Infix(Op(op), Var(name), e)), cfg, vars);
            short == long || (short.value.Err? && long.value.Err? && short.vars == long.vars)
  {
    hide ApplyBinary;
    var value := Infix(Op(op), Var(name), e);
    assert Lazy(Var(name), cfg, vars) == Outcome(Resolve(name, cfg, vars), vars);
    assert Lazy(value, cfg, vars)
        == (var x, r := Resolve(name, cfg, vars), Lazy(e, cfg, vars);
            if x.Err? then Outcome(x, vars) else if r.value.Err? then r else Outcome(ApplyBinary(op, x.value, r.value.value), vars));
  }

  // ----- Variables of a whole expression -----

  /** The names that stand to the left of an assignment operator. */
  function Assigned(e: Expr): set<string> {
    match e
    case Num(_) => {}
    case Var(_) => {}
    case Unary(_, arg) => Assigned(arg)
    case Infix(_, left, right) => Assigned(left) + Assigned(right)
    case Cond(test, yes, no) => Assigned(test) + Assigned(yes) + Assigned(no)
    case Assign(target, _, rhs) => {target} + Assigned(rhs)
  }

  predicate Kept(before: Vars, after: Vars, name: string) {
    (name in before <==> name in after) && (name in before ==> before[name] == after[name])
  }

  /** No expression changes a variable that it does not assign, or one that is readonly, and none
      unsets a variable. */
  lemma {:induction false} OnlyTargetsChange(e: Expr, cfg: Config, vars: Vars)
    ensures vars.Keys <= Eager(e, cfg, vars).vars.Keys
    ensures forall x | x !in Assigned(e) || x in cfg.readonly :: Kept(vars, Eager(e, cfg, vars).vars, x)
  {
    hide ApplyBinary, Resolve;
    match e
    case Num(_) =>
    case Var(_) =>
    case Unary(_, arg) => OnlyTargetsChange(arg, cfg, vars);
    case Infix(_, left, right) =>
      OnlyTargetsChange(left, cfg, vars);
      OnlyTargetsChange(right, cfg, Eager(left, cfg, vars).vars);
    case Cond(test, yes, no) =>
      OnlyTargetsChange(test, cfg, vars);
      OnlyTargetsChange(yes, cfg, Eager(test, cfg, vars).vars);
      OnlyTargetsChange(no, cfg, Eager(test, cfg, vars).vars);
    case Assign(_, _, rhs) => OnlyTargetsChange(rhs, cfg, vars);
  }

  /** An unset variable reads as an empty one does, unless nounset is on. */
  lemma UnsetReadsAsEmpty(name: string, cfg: Config, vars: Vars)
    requires name !in vars
    ensures Resolve(name, cfg, vars) == Resolve(name, cfg, vars[name := ""]) <==> !cfg.nounset
    ensures Resolve(name, cfg, vars[name := ""]) == Ok(0)
  {
  }

  lemma OperatorsReadNoVariables()
    ensures forall op: BinOp, a: i64, b: i64 :: ApplyBinary(op, a, b) != Err(ParameterNotSet)
  {
  }

  lemma NounsetStopsReading(name: string, aop: AssignOp, rhs: i64, readonly: set<string>, vars: Vars)
    ensures var strict, lax := Config(readonly, true), Config(readonly, false);
            && Resolve(name, lax, vars) != Err(ParameterNotSet)
            && (Resolve(name, strict, vars) == Resolve(name, lax, vars) || Resolve(name, strict, vars) == Err(ParameterNotSet))
            && Combined(aop, name, rhs, lax, vars) != Err(ParameterNotSet)
            && (Combined(aop, name, rhs, strict, vars) == Combined(aop, name, rhs, lax, vars)
                || Combined(aop, name, rhs, strict, vars) == Err(ParameterNotSet))
  {
    hide ApplyBinary, Reading;
    OperatorsReadNoVariables();
  }

  /** Nounset changes nothing but to stop some expressions with its own error. */
  lemma {:induction false} NounsetOnlyStops(e: Expr, readonly: set<string>, vars: Vars)
    ensures var strict, lax := Eager(e, Config(readonly, true), vars), Eager(e, Config(readonly, false), vars);
            && lax.value != Err(ParameterNotSet)
            && (strict == lax || strict.value == Err(ParameterNotSet))
  {
    hide ApplyBinary, Resolve, Combined;
    OperatorsReadNoVariables();
    var lax := Config(readonly, false);
    match e
    case Num(_) =>
    case Var(name) => NounsetStopsReading(name, Plain, 0, readonly, vars);
    case Unary(_, arg) => NounsetOnlyStops(arg, readonly, vars);
    case Infix(_, left, right) =>
      NounsetOnlyStops(left, readonly, vars);
      var mid := Eager(left, lax, vars).vars;
      NounsetOnlyStops(right, readonly, mid);
      NounsetOnlyStopsScan(right, readonly, mid);
    case Cond(test, yes, no) =>
      NounsetOnlyStops(test, readonly, vars);
      var mid := Eager(test, lax, vars).vars;
      NounsetOnlyStops(yes, readonly, mid);
      NounsetOnlyStops(no, readonly, mid);
      NounsetOnlyStopsScan(yes, readonly, mid);
      NounsetOnlyStopsScan(no, readonly, Eager(yes, lax, mid).vars);
    case Assign(target, aop, rhs) =>
      NounsetOnlyStops(rhs, readonly, vars);
      var r := Eager(rhs, lax, vars);
      if r.value.Ok? {
        NounsetStopsReading(target, aop, r.value.value, readonly, r.vars);
      }
  }

  lemma {:induction false} NounsetOnlyStopsScan(e: Expr, readonly: set<string>, vars: Vars)
    ensures var strict, lax := Dry(e, Config(readonly, true), vars), Dry(e, Config(readonly, false), vars);
            && lax != Err(ParameterNotSet)
            && (strict == lax || strict == Err(ParameterNotSet))
  {
    hide ApplyBinary, Resolve;
    OperatorsReadNoVariables();
    match e
    case Num(_) =>
    case Var(name) => NounsetStopsReading(name, Plain, 0, readonly, vars);
    case Unary(_, arg) => NounsetOnlyStopsScan(arg, readonly, vars);
    case Infix(_, left, right) =>
      NounsetOnlyStopsScan(left, readonly, vars);
      NounsetOnlyStopsScan(right, readonly, vars);
    case Cond(test, yes, no) =>
      NounsetOnlyStopsScan(test, readonly, vars);
      NounsetOnlyStopsScan(yes, readonly, vars);
      NounsetOnlyStopsScan(no, readonly, vars);
    case Assign(_, _, rhs) => NounsetOnlyStopsScan(rhs, readonly, vars);
  }
}
