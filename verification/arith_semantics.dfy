/** Meanings of an expression tree. `Lazy` is the textbook one: the operands that the C
    operators `&&`, `||` and `?:` do not select are not evaluated. `Eager` is what a single
    pass over the text can do: unselected operands are scanned for their value and their
    errors (`Dry`), but nothing is assigned in them. */
module ArithSemantics {
  import opened Wrappers
  import opened Int64
  import opened Bytes
  import opened ArithSyntax
  import Decimal

  type Vars = map<string, string>

  /** The part of the shell an expression cannot change. */
  datatype Config = Config(readonly: set<string>, nounset: bool)

  type Value = Result<i64, ArithError>

  /** Value or error, and the variables afterwards. */
  datatype Outcome = Outcome(value: Value, vars: Vars)

  function Truth(b: bool): i64 {
    if b then 1 else 0
  }

  // ----- Variables -----

  /** The longest suffix that does not begin with white space. */
  function TrimStart(s: string): string {
    s[RunEnd(Space, s, 0)..]
  }

  function TrimEnd(s: string): string {
    if s != [] && InClass(Space, s[|s| - 1]) then TrimEnd(s[..|s| - 1]) else s
  }

  function Trim(s: string): string {
    TrimEnd(TrimStart(s))
  }

  /** The number a non-empty variable value denotes. */
  function Reading(text: string): Option<i64> {
    var t := Trim(text);
    if LooksAt(t, 0, "0x") || LooksAt(t, 0, "0X") then Decimal.ParseRadix(Decimal.Hex, t[2..])
    else if LooksAt(t, 0, "0") && |t| > 1 && (forall k :: 1 <= k < |t| ==> IsDigit(t[k])) then
      Decimal.ParseRadix(Decimal.Octal, t[1..])
    else Decimal.ParseSigned(t)
  }

  function Resolve(name: string, cfg: Config, vars: Vars): Value {
    if name !in vars then
      if cfg.nounset then Err(ParameterNotSet) else Ok(0)
    else if vars[name] == "" then Ok(0)
    else
      match Reading(vars[name])
      case Some(v) => Ok(v)
      case None => Err(InvalidVariableValue)
  }

  function Store(name: string, v: i64, cfg: Config, vars: Vars): Outcome {
    if name in cfg.readonly then Outcome(Err(ReadonlyVariable), vars)
    else Outcome(Ok(v), vars[name := Decimal.Text(v)])
  }

  // ----- Operators -----

  function ApplyUnary(op: UnOp, v: i64): i64 {
    match op
    case Plus => v
    case Minus => Wrap(0 - v)
    case Complement => -1 - v
    case Not => Truth(v == 0)
  }

  function Divide(op: BinOp, a: i64, b: i64): Value
    requires op.Div? || op.Rem?
  {
    if b == 0 then Err(DivisionByZero)
    else if a == MIN && b == -1 then Err(DivisionOverflow)
    else
      TruncatingRange(a, b);
      Ok(if op.Div? then TruncDiv(a, b) else TruncRem(a, b))
  }

  function ApplyBinary(op: BinOp, a: i64, b: i64): Value {
    match op
    case BOr => Ok(BitwiseI64(BitOr, a, b))
    case BXor => Ok(BitwiseI64(BitXor, a, b))
    case BAnd => Ok(BitwiseI64(BitAnd, a, b))
    case Eq => Ok(Truth(a == b))
    case Ne => Ok(Truth(a != b))
    case Le => Ok(Truth(a <= b))
    case Ge => Ok(Truth(a >= b))
    case Lt => Ok(Truth(a < b))
    case Gt => Ok(Truth(a > b))
    case Shl => Ok(WrappingShl(a, b))
    case Shr => Ok(WrappingShr(a, b))
    case Add => Ok(Wrap(a + b))
    case Sub => Ok(Wrap(a - b))
    case Mul => Ok(Wrap(a * b))
    case _ => Divide(op, a, b)
  }

  // ----- Lazy evaluation -----

  function Lazy(e: Expr, cfg: Config, vars: Vars): Outcome {
    match e
    case Num(v) => Outcome(Ok(v), vars)
    case Var(name) => Outcome(Resolve(name, cfg, vars), vars)
    case Unary(op, arg) =>
      var a := Lazy(arg, cfg, vars);
      if a.value.Err? then a else Outcome(Ok(ApplyUnary(op, a.value.value)), a.vars)
    case Infix(iop, left, right) =>
      var l := Lazy(left, cfg, vars);
      if l.value.Err? then l
      else if iop.OrElse? && l.value.value != 0 then Outcome(Ok(1), l.vars)
      else if iop.AndAlso? && l.value.value == 0 then Outcome(Ok(0), l.vars)
      else
        var r := Lazy(right, cfg, l.vars);
        if r.value.Err? then r
        else if iop.Op? then Outcome(ApplyBinary(iop.op, l.value.value, r.value.value), r.vars)
        else Outcome(Ok(Truth(r.value.value != 0)), r.vars)
    case Cond(test, yes, no) =>
      var t := Lazy(test, cfg, vars);
      if t.value.Err? then t
      else if t.value.value != 0 then Lazy(yes, cfg, t.vars)
      else Lazy(no, cfg, t.vars)
    case Assign(target, aop, rhs) =>
      var r := Lazy(rhs, cfg, vars);
      if r.value.Err? then r
      else
        var v := Combined(aop, target, r.value.value, cfg, r.vars);
        if v.Err? then Outcome(v, r.vars) else Store(target, v.value, cfg, r.vars)
  }

  /** The value an assignment stores: the operand, or the old value combined with it. */
  function Combined(aop: AssignOp, target: string, rhs: i64, cfg: Config, vars: Vars): Value {
    if aop.Plain? then Ok(rhs)
    else
      var lhs := Resolve(target, cfg, vars);
      if lhs.Err? then lhs else ApplyBinary(aop.op, lhs.value, rhs)
  }

  // ----- Scanning an operand without effect -----

  /** Value of an operand in which no assignment takes place: `x = e` is worth `e`. */
  function Dry(e: Expr, cfg: Config, vars: Vars): Value {
    match e
    case Num(v) => Ok(v)
    case Var(name) => Resolve(name, cfg, vars)
    case Unary(op, arg) =>
      var a := Dry(arg, cfg, vars);
      if a.Err? then a else Ok(ApplyUnary(op, a.value))
    case Infix(iop, left, right) =>
      var l := Dry(left, cfg, vars);
      if l.Err? then l
      else
        var r := Dry(right, cfg, vars);
        if r.Err? then r else Joined(iop, l.value, r.value)
    case Cond(test, yes, no) =>
      var t, y, n := Dry(test, cfg, vars), Dry(yes, cfg, vars), Dry(no, cfg, vars);
      if t.Err? then t
      else if y.Err? then y
      else if n.Err? then n
      else if t.value != 0 then y else n
    case Assign(_, _, rhs) => Dry(rhs, cfg, vars)
  }

  /** Value of an infix operator both of whose operands have a value. */
  function Joined(iop: Infix, a: i64, b: i64): Value {
    match iop
    case OrElse => Ok(Truth(a != 0 || b != 0))
    case AndAlso => Ok(Truth(a != 0 && b != 0))
    case Op(op) => ApplyBinary(op, a, b)
  }

  // ----- One-pass evaluation -----

  function Eager(e: Expr, cfg: Config, vars: Vars): Outcome {
    match e
    case Num(v) => Outcome(Ok(v), vars)
    case Var(name) => Outcome(Resolve(name, cfg, vars), vars)
    case Unary(op, arg) =>
      var a := Eager(arg, cfg, vars);
      if a.value.Err? then a else Outcome(Ok(ApplyUnary(op, a.value.value)), a.vars)
    case Infix(iop, left, right) =>
      var l := Eager(left, cfg, vars);
      if l.value.Err? then l
      else
        var r := if Decided(iop, l.value.value) then Outcome(Dry(right, cfg, l.vars), l.vars)
                 else Eager(right, cfg, l.vars);
        if r.value.Err? then r else Outcome(Joined(iop, l.value.value, r.value.value), r.vars)
    case Cond(test, yes, no) =>
      var t := Eager(test, cfg, vars);
      if t.value.Err? then t
      else if t.value.value != 0 then
        var y := Eager(yes, cfg, t.vars);
        var n := Dry(no, cfg, y.vars);
        if y.value.Err? then y else if n.Err? then Outcome(n, y.vars) else y
      else
        var y := Dry(yes, cfg, t.vars);
        if y.Err? then Outcome(y, t.vars) else Eager(no, cfg, t.vars)
    case Assign(target, aop, rhs) =>
      var r := Eager(rhs, cfg, vars);
      if r.value.Err? then r
      else
        var v := Combined(aop, target, r.value.value, cfg, r.vars);
        if v.Err? then Outcome(v, r.vars) else Store(target, v.value, cfg, r.vars)
  }

  /** The left operand alone determines the result of a logical operator. */
  predicate Decided(iop: Infix, left: i64) {
    (iop.OrElse? && left != 0) || (iop.AndAlso? && left == 0)
  }

  // ----- When the one-pass meaning is the lazy meaning -----

  /** An operand that lazy evaluation leaves out, with the variables it would have seen. */
  datatype Omitted = Omitted(operand: Expr, vars: Vars)

  /** Every operand that lazy evaluation of `e` leaves out. */
  function OmittedBy(e: Expr, cfg: Config, vars: Vars): seq<Omitted> {
    match e
    case Num(_) => []
    case Var(_) => []
    case Unary(_, arg) => OmittedBy(arg, cfg, vars)
    case Infix(iop, left, right) =>
      var l := Lazy(left, cfg, vars);
      OmittedBy(left, cfg, vars) +
      (if l.value.Err? then []
       else if Decided(iop, l.value.value) then [Omitted(right, l.vars)]
       else OmittedBy(right, cfg, l.vars))
    case Cond(test, yes, no) =>
      var t := Lazy(test, cfg, vars);
      OmittedBy(test, cfg, vars) +
      (if t.value.Err? then []
       else if t.value.value != 0 then
         OmittedBy(yes, cfg, t.vars) + [Omitted(no, Lazy(yes, cfg, t.vars).vars)]
       else
         [Omitted(yes, t.vars)] + OmittedBy(no, cfg, t.vars))
    case Assign(_, _, rhs) => OmittedBy(rhs, cfg, vars)
  }

  /** Scanning this omitted operand raises no error. */
  predicate ScansCleanly(o: Omitted, cfg: Config) {
    Dry(o.operand, cfg, o.vars).Ok?
  }

  predicate AllScanCleanly(os: seq<Omitted>, cfg: Config) {
    forall k :: 0 <= k < |os| ==> ScansCleanly(os[k], cfg)
  }

  lemma AllScanConcat(a: seq<Omitted>, b: seq<Omitted>, cfg: Config)
    ensures AllScanCleanly(a + b, cfg) <==> AllScanCleanly(a, cfg) && AllScanCleanly(b, cfg)
  {
    if AllScanCleanly(a + b, cfg) {
      forall k | 0 <= k < |a| ensures ScansCleanly(a[k], cfg) {
        assert (a + b)[k] == a[k];
      }
      forall k | 0 <= k < |b| ensures ScansCleanly(b[k], cfg) {
        assert (a + b)[|a| + k] == b[k];
      }
    }
  }

  lemma AllScanOne(o: Omitted, cfg: Config)
    ensures AllScanCleanly([o], cfg) <==> ScansCleanly(o, cfg)
  {
    assert [o][0] == o;
  }

  /** One-pass evaluation succeeds exactly when lazy evaluation does and every omitted
      operand scans without error; and then value and variables are the lazy ones. */
  lemma {:induction false} EagerIsLazy(e: Expr, cfg: Config, vars: Vars)
    ensures Eager(e, cfg, vars).value.Ok?
       <==> Lazy(e, cfg, vars).value.Ok? && AllScanCleanly(OmittedBy(e, cfg, vars), cfg)
    ensures Eager(e, cfg, vars).value.Ok? ==> Eager(e, cfg, vars) == Lazy(e, cfg, vars)
  {
    hide ScansCleanly, ApplyBinary, Resolve;
    match e
    case Num(_) =>
    case Var(_) =>
    case Unary(_, arg) =>
      EagerIsLazy(arg, cfg, vars);
    case Infix(iop, left, right) =>
      EagerIsLazy(left, cfg, vars);
      EagerIsLazy(right, cfg, Lazy(left, cfg, vars).vars);
      EagerIsLazyInfix(iop, left, right, cfg, vars);
    case Cond(test, yes, no) =>
      var mid := Lazy(test, cfg, vars).vars;
      EagerIsLazy(test, cfg, vars);
      EagerIsLazy(yes, cfg, mid);
      EagerIsLazy(no, cfg, mid);
      EagerIsLazyCond(test, yes, no, cfg, vars);
    case Assign(_, _, rhs) =>
      EagerIsLazy(rhs, cfg, vars);
  }

  /** What the two meanings of one tree have to do with each other. */
  ghost predicate Agree(e: Expr, cfg: Config, vars: Vars) {
    && (Eager(e, cfg, vars).value.Ok?
        <==> Lazy(e, cfg, vars).value.Ok? && AllScanCleanly(OmittedBy(e, cfg, vars), cfg))
    && (Eager(e, cfg, vars).value.Ok? ==> Eager(e, cfg, vars) == Lazy(e, cfg, vars))
  }

  lemma {:induction false} EagerIsLazyInfix(iop: Infix, left: Expr, right: Expr, cfg: Config, vars: Vars)
    requires Agree(left, cfg, vars)
    requires Agree(right, cfg, Lazy(left, cfg, vars).vars)
    ensures Agree(Infix(iop, left, right), cfg, vars)
  {
    hide ApplyBinary, Resolve, AllScanCleanly;
    var e := Infix(iop, left, right);
    var l := Lazy(left, cfg, vars);
    var before := OmittedBy(left, cfg, vars);
    if l.value.Err? {
      assert before + [] == before;
      assert OmittedBy(e, cfg, vars) == before;
    } else if Decided(iop, l.value.value) {
      assert OmittedBy(e, cfg, vars) == before + [Omitted(right, l.vars)];
      AllScanConcat(before, [Omitted(right, l.vars)], cfg);
      AllScanOne(Omitted(right, l.vars), cfg);
    } else {
      assert OmittedBy(e, cfg, vars) == before + OmittedBy(right, cfg, l.vars);
      AllScanConcat(before, OmittedBy(right, cfg, l.vars), cfg);
    }
  }

  lemma {:induction false} EagerIsLazyCond(test: Expr, yes: Expr, no: Expr, cfg: Config, vars: Vars)
    requires Agree(test, cfg, vars)
    requires Agree(yes, cfg, Lazy(test, cfg, vars).vars)
    requires Agree(no, cfg, Lazy(test, cfg, vars).vars)
    ensures Agree(Cond(test, yes, no), cfg, vars)
  {
    hide ApplyBinary, Resolve, AllScanCleanly;
    var e := Cond(test, yes, no);
    var t := Lazy(test, cfg, vars);
    var before := OmittedBy(test, cfg, vars);
    if t.value.Err? {
      assert before + [] == before;
      assert OmittedBy(e, cfg, vars) == before;
    } else if t.value.value != 0 {
      var last := Omitted(no, Lazy(yes, cfg, t.vars).vars);
      var chosen := OmittedBy(yes, cfg, t.vars);
      assert OmittedBy(e, cfg, vars) == before + (chosen + [last]);
      AllScanOne(last, cfg);
      AllScanConcat(chosen, [last], cfg);
      AllScanConcat(before, chosen + [last], cfg);
    } else {
      var first := Omitted(yes, t.vars);
      var chosen := OmittedBy(no, cfg, t.vars);
      assert OmittedBy(e, cfg, vars) == before + ([first] + chosen);
      AllScanOne(first, cfg);
      AllScanConcat([first], chosen, cfg);
      AllScanConcat(before, [first] + chosen, cfg);
    }
  }

  // ----- Storing and reading back -----

  /** A value stored by an assignment is read back unchanged, except i64::MIN, whose decimal
      text is not a readable variable value. */
  lemma StoreThenResolve(name: string, v: i64, cfg: Config, vars: Vars)
    requires name !in cfg.readonly
    ensures Resolve(name, cfg, Store(name, v, cfg, vars).vars)
         == if v == MIN then Err(InvalidVariableValue) else Ok(v)
  {
    var t := Decimal.Text(v);
    TextIsTrimmed(v);
    TextHasNoPrefix(v);
    Decimal.ParseInvertsText(v);
  }

  lemma TextIsTrimmed(v: i64)
    ensures Trim(Decimal.Text(v)) == Decimal.Text(v)
  {
    var t := Decimal.Text(v);
    var n: nat := if v < 0 then -(v as int) else v;
    Decimal.NumeralDenotes(Decimal.Ten, n);
    var digits := Decimal.Numeral(Decimal.Ten, n);
    assert Decimal.DigitOf(Decimal.Ten, digits[0]).Some?;
    assert Decimal.DigitOf(Decimal.Ten, digits[|digits| - 1]).Some?;
    assert RunEnd(Space, t, 0) == 0;
    assert t[0..] == t;
  }

  /** A decimal numeral begins with 0 only when it is "0". */
  lemma {:induction false} NumeralLeadingDigit(n: nat)
    ensures Decimal.Numeral(Decimal.Ten, n)[0] == '0' <==> n == 0
    ensures n == 0 ==> Decimal.Numeral(Decimal.Ten, n) == "0"
    decreases n
  {
    if n >= 10 {
      NumeralLeadingDigit(n / 10);
    }
  }

  lemma TextHasNoPrefix(v: i64)
    ensures var t := Decimal.Text(v);
            !LooksAt(t, 0, "0x") && !LooksAt(t, 0, "0X") && !(LooksAt(t, 0, "0") && |t| > 1)
  {
    var t := Decimal.Text(v);
    LooksAtOne(t, 0, '0');
    LooksAtTwo(t, 0, '0', 'x');
    LooksAtTwo(t, 0, '0', 'X');
    if v >= 0 {
      NumeralLeadingDigit(v);
    }
  }

  // ----- Where the one-pass meaning is not the lazy meaning -----

  /** `1 || 1/0`: lazily 1, but the single pass stops at the division it should skip. */
  lemma OmittedOperandCanStopTheScan(cfg: Config, vars: Vars)
    ensures var e := Infix(OrElse, Num(1), Infix(Op(Div), Num(1), Num(0)));
            && Lazy(e, cfg, vars) == Outcome(Ok(1), vars)
            && Eager(e, cfg, vars) == Outcome(Err(DivisionByZero), vars)
  {
    var division := Infix(Op(Div), Num(1), Num(0));
    assert Dry(Num(1), cfg, vars) == Ok(1) && Dry(Num(0), cfg, vars) == Ok(0);
    assert Dry(division, cfg, vars) == Err(DivisionByZero);
    assert Eager(Num(1), cfg, vars) == Outcome(Ok(1), vars);
  }
}
