/** The expression grammar of arithmetic expansion as a pure parser: text to tree, with no
    variable looked up and nothing evaluated. It is the reference against which the one-pass
    evaluator is proved. */
module ArithSyntax {
  import opened Wrappers
  import opened Int64
  import opened Bytes
  import Decimal

  datatype UnOp = Plus | Minus | Complement | Not

  datatype BinOp =
    | BOr | BXor | BAnd | Eq | Ne | Le | Ge | Lt | Gt
    | Shl | Shr | Add | Sub | Mul | Div | Rem

  datatype Infix = OrElse | AndAlso | Op(op: BinOp)

  datatype AssignOp = Plain | Compound(op: BinOp)

  datatype Expr =
    | Num(value: i64)
    | Var(name: string)
    | Unary(uop: UnOp, arg: Expr)
    | Infix(iop: Infix, left: Expr, right: Expr)
    | Cond(test: Expr, yes: Expr, no: Expr)
    | Assign(target: string, aop: AssignOp, rhs: Expr)

  datatype ArithError =
    | TrailingTokens | ExpectedColon | MissingParen
    | InvalidHex | InvalidOctal | ExpectedOperand | InvalidOperand
    | DivisionByZero
    | DivisionOverflow                     // i64::MIN / -1 and i64::MIN % -1: the program aborts
    | ParameterNotSet | InvalidVariableValue | ReadonlyVariable

  datatype Parsed = Parsed(expr: Expr, next: nat)

  type ParseResult = Result<Parsed, ArithError>

  /** The parse succeeded and moved forward inside the text. */
  predicate Advances(r: ParseResult, s: string, i: nat) {
    r.Ok? ==> i < r.value.next <= |s|
  }

  /** Position of the first byte at or after `i` that is not white space. */
  function SkipWs(s: string, i: nat): nat
    requires i <= |s|
  {
    RunEnd(Space, s, i)
  }

  // ----- Operator tokens, one row of the precedence table per level -----

  const UNARY_LEVEL: nat := 10

  function InfixAt(level: nat, s: string, j: nat): Option<(Infix, nat)> {
    match level
    case 0 => if LooksAt(s, j, "||") then Some((OrElse, 2)) else None
    case 1 => if LooksAt(s, j, "&&") then Some((AndAlso, 2)) else None
    case 2 => if At(s, j, '|') && !At(s, j + 1, '|') && !At(s, j + 1, '=') then Some((Op(BOr), 1)) else None
    case 3 => if At(s, j, '^') && !At(s, j + 1, '=') then Some((Op(BXor), 1)) else None
    case 4 => if At(s, j, '&') && !At(s, j + 1, '&') && !At(s, j + 1, '=') then Some((Op(BAnd), 1)) else None
    case 5 =>
      if LooksAt(s, j, "==") then Some((Op(Eq), 2))
      else if LooksAt(s, j, "!=") then Some((Op(Ne), 2))
      else None
    case 6 =>
      if LooksAt(s, j, "<=") then Some((Op(Le), 2))
      else if LooksAt(s, j, ">=") then Some((Op(Ge), 2))
      else if At(s, j, '<') && !At(s, j + 1, '<') then Some((Op(Lt), 1))
      else if At(s, j, '>') && !At(s, j + 1, '>') then Some((Op(Gt), 1))
      else None
    case 7 =>
      if At(s, j, '<') && At(s, j + 1, '<') && !At(s, j + 2, '=') then Some((Op(Shl), 2))
      else if At(s, j, '>') && At(s, j + 1, '>') && !At(s, j + 2, '=') then Some((Op(Shr), 2))
      else None
    case 8 =>
      if At(s, j, '+') && !At(s, j + 1, '=') then Some((Op(Add), 1))
      else if At(s, j, '-') && !At(s, j + 1, '=') then Some((Op(Sub), 1))
      else None
    case 9 =>
      if At(s, j, '*') && !At(s, j + 1, '=') then Some((Op(Mul), 1))
      else if At(s, j, '/') && !At(s, j + 1, '=') then Some((Op(Div), 1))
      else if At(s, j, '%') && !At(s, j + 1, '=') then Some((Op(Rem), 1))
      else None
    case _ => None
  }

  lemma InfixInBounds(level: nat, s: string, j: nat)
    ensures InfixAt(level, s, j).Some? ==> 1 <= InfixAt(level, s, j).value.1 && j + InfixAt(level, s, j).value.1 <= |s|
  {
  }

  function AssignOpAt(s: string, j: nat): (r: Option<(AssignOp, nat)>)
    ensures r.Some? ==> 1 <= r.value.1 && j + r.value.1 <= |s|
  {
    if LooksAt(s, j, "<<=") then Some((Compound(Shl), 3))
    else if LooksAt(s, j, ">>=") then Some((Compound(Shr), 3))
    else if LooksAt(s, j, "&=") then Some((Compound(BAnd), 2))
    else if LooksAt(s, j, "^=") then Some((Compound(BXor), 2))
    else if LooksAt(s, j, "|=") then Some((Compound(BOr), 2))
    else if LooksAt(s, j, "*=") then Some((Compound(Mul), 2))
    else if LooksAt(s, j, "/=") then Some((Compound(Div), 2))
    else if LooksAt(s, j, "%=") then Some((Compound(Rem), 2))
    else if LooksAt(s, j, "+=") then Some((Compound(Add), 2))
    else if LooksAt(s, j, "-=") then Some((Compound(Sub), 2))
    else if LooksAt(s, j, "=") && !LooksAt(s, j, "==") then Some((Plain, 1))
    else None
  }

  function UnOpAt(s: string, j: nat): Option<UnOp> {
    if At(s, j, '+') then Some(Plus)
    else if At(s, j, '-') then Some(Minus)
    else if At(s, j, '~') then Some(Complement)
    else if At(s, j, '!') && !At(s, j + 1, '=') then Some(Not)
    else None
  }

  /** A name starts at `j`. */
  predicate NameAt(s: string, j: nat) {
    j < |s| && IsNameStart(s[j])
  }

  function NumberOr(v: Option<i64>, next: nat, e: ArithError): ParseResult {
    match v
    case Some(n) => Ok(Parsed(Num(n), next))
    case None => Err(e)
  }

  function ParseNumber(s: string, j: nat): (r: ParseResult)
    requires j <= |s|
    ensures Advances(r, s, j)
  {
    if At(s, j, '0') && (At(s, j + 1, 'x') || At(s, j + 1, 'X')) then
      var k := RunEnd(HexDigit, s, j + 2);
      if k == j + 2 then Err(InvalidHex)
      else NumberOr(Decimal.ParseRadix(Decimal.Hex, s[j + 2..k]), k, InvalidHex)
    else if At(s, j, '0') && j + 1 < |s| && IsDigit(s[j + 1]) then
      var k := RunEnd(Digit, s, j + 1);
      NumberOr(Decimal.ParseRadix(Decimal.Octal, s[j + 1..k]), k, InvalidOctal)
    else if At(s, j, '0') then
      Ok(Parsed(Num(0), j + 1))
    else
      var k := RunEnd(Digit, s, j);
      if k == j then Err(ExpectedOperand)
      else NumberOr(Decimal.ParseSigned(s[j..k]), k, InvalidOperand)
  }

  function ParsePrimary(s: string, i: nat): (r: ParseResult)
    requires i <= |s|
    ensures Advances(r, s, i)
    decreases |s| - i, 0
  {
    var j := SkipWs(s, i);
    if At(s, j, '(') then
      match ParseAssignment(s, j + 1)
      case Err(e) => Err(e)
      case Ok(p) =>
        var k := SkipWs(s, p.next);
        if At(s, k, ')') then Ok(Parsed(p.expr, k + 1)) else Err(MissingParen)
    else if NameAt(s, j) then
      var k := RunEnd(NameChar, s, j + 1);
      Ok(Parsed(Var(s[j..k]), k))
    else
      ParseNumber(s, j)
  }

  function ParseUnary(s: string, i: nat): (r: ParseResult)
    requires i <= |s|
    ensures Advances(r, s, i)
    decreases |s| - i, 1
  {
    var j := SkipWs(s, i);
    match UnOpAt(s, j)
    case Some(op) =>
      (match ParseUnary(s, j + 1)
       case Err(e) => Err(e)
       case Ok(p) => Ok(Parsed(Unary(op, p.expr), p.next)))
    case None => ParsePrimary(s, j)
  }

  /** An operand of the operators of `level`, and then as many of those operators as follow. */
  function ParseLevel(level: nat, s: string, i: nat): (r: ParseResult)
    requires i <= |s| && level <= UNARY_LEVEL
    ensures Advances(r, s, i)
    decreases |s| - i, 12 - level
  {
    if level == UNARY_LEVEL then ParseUnary(s, i)
    else
      match ParseLevel(level + 1, s, i)
      case Err(e) => Err(e)
      case Ok(p) => ParseRest(level, p.expr, s, p.next)
  }

  /** Left-associative continuation of `left` with operators of `level`. */
  function ParseRest(level: nat, left: Expr, s: string, i: nat): (r: ParseResult)
    requires i <= |s| && level < UNARY_LEVEL
    ensures r.Ok? ==> i <= r.value.next <= |s|
    decreases |s| - i, 0
  {
    var j := SkipWs(s, i);
    InfixInBounds(level, s, j);
    match InfixAt(level, s, j)
    case None => Ok(Parsed(left, j))
    case Some((op, n)) =>
      match ParseLevel(level + 1, s, j + n)
      case Err(e) => Err(e)
      case Ok(p) => ParseRest(level, Infix(op, left, p.expr), s, p.next)
  }

  function ParseTernary(s: string, i: nat): (r: ParseResult)
    requires i <= |s|
    ensures Advances(r, s, i)
    decreases |s| - i, 13
  {
    match ParseLevel(0, s, i)
    case Err(e) => Err(e)
    case Ok(test) =>
      var j := SkipWs(s, test.next);
      if !At(s, j, '?') then Ok(Parsed(test.expr, j))
      else
        match ParseAssignment(s, j + 1)
        case Err(e) => Err(e)
        case Ok(yes) =>
          var k := SkipWs(s, yes.next);
          if !At(s, k, ':') then Err(ExpectedColon)
          else
            match ParseAssignment(s, k + 1)
            case Err(e) => Err(e)
            case Ok(no) => Ok(Parsed(Cond(test.expr, yes.expr, no.expr), no.next))
  }

  /** A name followed by an assignment operator begins a right-associative assignment. */
  function ParseAssignment(s: string, i: nat): (r: ParseResult)
    requires i <= |s|
    ensures Advances(r, s, i)
    decreases |s| - i, 14
  {
    var j := SkipWs(s, i);
    if !NameAt(s, j) then ParseTernary(s, j)
    else
      var k := RunEnd(NameChar, s, j + 1);
      var m := SkipWs(s, k);
      match AssignOpAt(s, m)
      case None => ParseTernary(s, j)
      case Some((op, n)) =>
        match ParseAssignment(s, m + n)
        case Err(e) => Err(e)
        case Ok(p) => Ok(Parsed(Assign(s[j..k], op, p.expr), p.next))
  }

  /** A whole expression: one assignment-level expression and then nothing but white space. */
  function ParseExpression(s: string): Result<Expr, ArithError> {
    match ParseAssignment(s, 0)
    case Err(e) => Err(e)
    case Ok(p) => if SkipWs(s, p.next) == |s| then Ok(p.expr) else Err(TrailingTokens)
  }

  // ----- What has been read of a text that does not parse -----

  /** The tree of what was read before the error, when there is one. A missing operand is 0. */
  function PrefixPrimary(s: string, i: nat): Expr
    requires i <= |s|
    decreases |s| - i, 0
  {
    var j := SkipWs(s, i);
    if At(s, j, '(') then
      match ParseAssignment(s, j + 1)
      case Err(_) => PrefixAssignment(s, j + 1)
      case Ok(p) => p.expr
    else Num(0)
  }

  function PrefixUnary(s: string, i: nat): Expr
    requires i <= |s|
    decreases |s| - i, 1
  {
    var j := SkipWs(s, i);
    if UnOpAt(s, j).Some? then PrefixUnary(s, j + 1) else PrefixPrimary(s, j)
  }

  function PrefixLevel(level: nat, s: string, i: nat): Expr
    requires i <= |s| && level <= UNARY_LEVEL
    decreases |s| - i, 12 - level
  {
    if level == UNARY_LEVEL then PrefixUnary(s, i)
    else
      match ParseLevel(level + 1, s, i)
      case Err(_) => PrefixLevel(level + 1, s, i)
      case Ok(p) => PrefixRest(level, p.expr, s, p.next)
  }

  function PrefixRest(level: nat, left: Expr, s: string, i: nat): Expr
    requires i <= |s| && level < UNARY_LEVEL
    decreases |s| - i, 0
  {
    var j := SkipWs(s, i);
    InfixInBounds(level, s, j);
    match InfixAt(level, s, j)
    case None => left
    case Some((op, n)) =>
      match ParseLevel(level + 1, s, j + n)
      case Err(_) => Infix(op, left, PrefixLevel(level + 1, s, j + n))
      case Ok(p) => PrefixRest(level, Infix(op, left, p.expr), s, p.next)
  }

  function PrefixTernary(s: string, i: nat): Expr
    requires i <= |s|
    decreases |s| - i, 13
  {
    match ParseLevel(0, s, i)
    case Err(_) => PrefixLevel(0, s, i)
    case Ok(test) =>
      var j := SkipWs(s, test.next);
      if !At(s, j, '?') then test.expr
      else
        match ParseAssignment(s, j + 1)
        case Err(_) => Cond(test.expr, PrefixAssignment(s, j + 1), Num(0))
        case Ok(yes) =>
          var k := SkipWs(s, yes.next);
          Cond(test.expr, yes.expr, if At(s, k, ':') then PrefixAssignment(s, k + 1) else Num(0))
  }

  /** An assignment whose right-hand side does not parse assigns nothing. */
  function PrefixAssignment(s: string, i: nat): Expr
    requires i <= |s|
    decreases |s| - i, 14
  {
    var j := SkipWs(s, i);
    if !NameAt(s, j) then PrefixTernary(s, j)
    else
      var m := SkipWs(s, RunEnd(NameChar, s, j + 1));
      match AssignOpAt(s, m)
      case None => PrefixTernary(s, j)
      case Some((_, n)) => PrefixAssignment(s, m + n)
  }

  function PrefixExpression(s: string): Expr {
    match ParseAssignment(s, 0)
    case Err(_) => PrefixAssignment(s, 0)
    case Ok(p) => p.expr
  }
}
