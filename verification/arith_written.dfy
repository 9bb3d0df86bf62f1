/** Constants and operators of arithmetic expansion as they are written, byte by byte. */
module ArithWritten {
  import opened Wrappers
  import opened Int64
  import opened Bytes
  import opened ArithSyntax
  import opened ArithSpelling
  import ArithSemantics
  import Decimal

  // ----- Constants -----

  /** A text that is one constant, good or bad. */
  lemma ConstantIsRead(s: string, v: i64)
    requires s != "" && IsDigit(s[0]) && ParseNumber(s, 0) == Ok(Parsed(Num(v), |s|))
    ensures ParseExpression(s) == Ok(Num(v))
  {
    hide RunEnd, ParseNumber, LooksAt, InfixAt, AssignOpAt;
    DigitIsNoName(s, 0);
    WholeText(s);
    StepsDown(Num(v), PRIMARY, ASSIGNMENT, s, 0, |s|);
  }

  lemma BadConstantIsAnError(s: string, e: ArithError)
    requires s != "" && IsDigit(s[0]) && ParseNumber(s, 0) == Err(e)
    ensures ParseExpression(s) == Err(e)
  {
    hide RunEnd, ParseNumber, LooksAt, InfixAt, AssignOpAt, ParseLevel;
    DigitIsNoName(s, 0);
    UnaryOfPrimary(s, 0);
    ErrorStepsUp(s, 0, e);
    assert ParseTernary(s, 0) == Err(e);
    assert ParseAssignment(s, 0) == Err(e);
  }

  lemma {:induction false} ErrorStepsUp(s: string, level: nat, e: ArithError)
    requires level <= UNARY_LEVEL && ParseLevel(UNARY_LEVEL, s, 0) == Err(e)
    ensures ParseLevel(level, s, 0) == Err(e)
    decreases UNARY_LEVEL - level
  {
    hide ParseUnary;
    if level < UNARY_LEVEL {
      ErrorStepsUp(s, level + 1, e);
    }
  }

  lemma OctalDigits(n: nat)
    ensures forall k :: 0 <= k < |Decimal.Numeral(Decimal.Octal, n)| ==> IsDigit(Decimal.Numeral(Decimal.Octal, n)[k])
  {
    var t := Decimal.Numeral(Decimal.Octal, n);
    Decimal.NumeralDenotes(Decimal.Octal, n);
    forall k | 0 <= k < |t| ensures IsDigit(t[k]) {
      assert Decimal.DigitOf(Decimal.Octal, t[k]).Some?;
    }
  }

  lemma DigitIsNoBlank(c: char)
    requires IsDigit(c)
    ensures !InClass(Space, c)
  {
  }

  /** 0 and an octal numeral: that number, if it fits. */
  lemma OctalConstant(n: nat)
    ensures ParseExpression("0" + Decimal.Numeral(Decimal.Octal, n)) == if n <= MAX then Ok(Num(n)) else Err(InvalidOctal)
  {
    var t := Decimal.Numeral(Decimal.Octal, n);
    var s := "0" + t;
    OctalDigits(n);
    RunEndsAt(Digit, s, 1, |s|);
    assert s[1..|s|] == t && IsDigit(s[1]);
    Decimal.ParseInvertsNumeral(Decimal.Octal, n);
    hide RunEnd, Decimal.Numeral, Decimal.ParseRadix;
    if n <= MAX {
      ConstantIsRead(s, n);
    } else {
      BadConstantIsAnError(s, InvalidOctal);
    }
  }

  /** The letters of a hexadecimal numeral, each in either case. */
  predicate CasedAs(t: string, numeral: string) {
    |t| == |numeral| && forall k :: 0 <= k < |t| ==> t[k] == numeral[k] || Capital(numeral[k], t[k])
  }

  predicate Capital(small: char, large: char) {
    exists d :: 10 <= d < 16 && small == Decimal.DIGITS[d] && large == Decimal.CAPITALS[d]
  }

  lemma {:induction false} CaseDoesNotMatter(t: string, numeral: string)
    requires CasedAs(t, numeral) && Decimal.AllDigits(Decimal.Hex, numeral)
    ensures Decimal.AllDigits(Decimal.Hex, t) && Decimal.Value(Decimal.Hex, t) == Decimal.Value(Decimal.Hex, numeral)
  {
    forall k | 0 <= k < |t|
      ensures Decimal.DigitOf(Decimal.Hex, t[k]) == Decimal.DigitOf(Decimal.Hex, numeral[k])
    {
      assert Decimal.DigitOf(Decimal.Hex, numeral[k]).Some?;
      if t[k] != numeral[k] {
        var d :| 10 <= d < 16 && numeral[k] == Decimal.DIGITS[d] && t[k] == Decimal.CAPITALS[d];
        Decimal.DigitsAsWritten(Decimal.Hex, d);
      }
    }
    if t != "" {
      CaseDoesNotMatter(t[..|t| - 1], numeral[..|t| - 1]);
    }
  }

  /** 0x or 0X and a hexadecimal numeral in either case: that number, if it fits. */
  lemma HexConstant(n: nat, x: char, t: string)
    requires x in {'x', 'X'} && CasedAs(t, Decimal.Numeral(Decimal.Hex, n))
    ensures ParseExpression(['0', x] + t) == if n <= MAX then Ok(Num(n)) else Err(InvalidHex)
  {
    var s := ['0', x] + t;
    Decimal.NumeralDenotes(Decimal.Hex, n);
    CaseDoesNotMatter(t, Decimal.Numeral(Decimal.Hex, n));
    forall k | 0 <= k < |t| ensures InClass(HexDigit, t[k]) {
      assert Decimal.DigitOf(Decimal.Hex, t[k]).Some?;
    }
    RunEndsAt(HexDigit, s, 2, |s|);
    assert s[2..|s|] == t;
    hide RunEnd, Decimal.Numeral, Decimal.AllDigits, Decimal.Value;
    if n <= MAX {
      ConstantIsRead(s, n);
    } else {
      BadConstantIsAnError(s, InvalidHex);
    }
  }

  // ----- Constants held by variables -----

  predicate Blank(s: string) {
    forall k :: 0 <= k < |s| ==> InClass(Space, s[k])
  }

  /** Nothing but white space is trimmed, and all of it is. */
  lemma TrimStrips(a: string, t: string, b: string)
    requires Blank(a) && Blank(b) && t != "" && !InClass(Space, t[0]) && !InClass(Space, t[|t| - 1])
    ensures ArithSemantics.Trim(a + t + b) == t
  {
    var s := a + t + b;
    assert forall k :: 0 <= k < |a| ==> s[k] == a[k];
    assert s[|a|] == t[0];
    RunEndsAt(Space, s, 0, |a|);
    assert s[|a|..] == t + b;
    TrimEndStrips(t, b);
  }

  lemma {:induction false} TrimEndStrips(t: string, b: string)
    requires Blank(b) && t != "" && !InClass(Space, t[|t| - 1])
    ensures ArithSemantics.TrimEnd(t + b) == t
    decreases |b|
  {
    if b == "" {
      assert t + b == t;
    } else {
      TrimEndStrips(t, b[..|b| - 1]);
      assert (t + b)[..|t + b| - 1] == t + b[..|b| - 1];
    }
  }

  /** A variable that holds an octal constant, with any white space around it. */
  lemma OctalVariable(name: string, n: nat, a: string, b: string, cfg: ArithSemantics.Config, vars: ArithSemantics.Vars)
    requires Blank(a) && Blank(b)
    requires name in vars && vars[name] == a + ("0" + Decimal.Numeral(Decimal.Octal, n)) + b
    ensures ArithSemantics.Resolve(name, cfg, vars) == if n <= MAX then Ok(n) else Err(InvalidVariableValue)
  {
    var t := Decimal.Numeral(Decimal.Octal, n);
    var s := "0" + t;
    OctalDigits(n);
    Decimal.ParseInvertsNumeral(Decimal.Octal, n);
    hide Decimal.Numeral, Decimal.ParseRadix, ArithSemantics.Trim, InClass, Decimal.ParseSigned;
    assert !InClass(Space, s[0]) && !InClass(Space, s[|s| - 1]) by {
      DigitIsNoBlank(s[0]);
      DigitIsNoBlank(s[|s| - 1]);
    }
    TrimStrips(a, s, b);
    LooksAtOne(s, 0, '0');
    LooksAtTwo(s, 0, '0', 'x');
    LooksAtTwo(s, 0, '0', 'X');
    assert s[1..] == t;
  }

  /** A variable that holds a hexadecimal constant, with any white space around it. */
  lemma HexVariable(name: string, n: nat, x: char, t: string, a: string, b: string,
                    cfg: ArithSemantics.Config, vars: ArithSemantics.Vars)
    requires Blank(a) && Blank(b) && x in {'x', 'X'} && CasedAs(t, Decimal.Numeral(Decimal.Hex, n))
    requires name in vars && vars[name] == a + (['0', x] + t) + b
    ensures ArithSemantics.Resolve(name, cfg, vars) == if n <= MAX then Ok(n) else Err(InvalidVariableValue)
  {
    var s := ['0', x] + t;
    Decimal.NumeralDenotes(Decimal.Hex, n);
    CaseDoesNotMatter(t, Decimal.Numeral(Decimal.Hex, n));
    assert Decimal.DigitOf(Decimal.Hex, t[|t| - 1]).Some?;
    hide Decimal.Numeral, Decimal.AllDigits, Decimal.Value, ArithSemantics.Trim;
    TrimStrips(a, s, b);
    LooksAtTwo(s, 0, '0', 'x');
    LooksAtTwo(s, 0, '0', 'X');
    assert s[2..] == t;
  }

  // ----- Operators -----

  function Between(a: string, op: string, b: string): string {
    a + " " + op + " " + b
  }

  lemma InfixAsWritten(iop: Infix, a: i64, b: i64)
    requires a >= 0 && b >= 0
    ensures ParseExpression(Between(Decimal.Text(a), InfixText(iop), Decimal.Text(b))) == Ok(Infix(iop, Num(a), Num(b)))
  {
    hide ParseExpression, Body;
    NumberShown(a);
    NumberShown(b);
    InfixShown(iop, Num(a), Num(b));
    SpellingReadsBack(Infix(iop, Num(a), Num(b)));
  }

  lemma NumberShown(v: i64)
    ensures Body(Num(v)) == Decimal.Text(v)
  {
  }

  /** The bytes of every infix operator. */
  lemma OperatorsAsWritten(a: i64, b: i64)
    requires a >= 0 && b >= 0
    ensures var x, y := Decimal.Text(a), Decimal.Text(b);
            && ParseExpression(x + " + " + y) == Ok(Infix(Op(Add), Num(a), Num(b)))
            && ParseExpression(x + " - " + y) == Ok(Infix(Op(Sub), Num(a), Num(b)))
            && ParseExpression(x + " * " + y) == Ok(Infix(Op(Mul), Num(a), Num(b)))
            && ParseExpression(x + " / " + y) == Ok(Infix(Op(Div), Num(a), Num(b)))
            && ParseExpression(x + " % " + y) == Ok(Infix(Op(Rem), Num(a), Num(b)))
            && ParseExpression(x + " << " + y) == Ok(Infix(Op(Shl), Num(a), Num(b)))
            && ParseExpression(x + " >> " + y) == Ok(Infix(Op(Shr), Num(a), Num(b)))
            && ParseExpression(x + " & " + y) == Ok(Infix(Op(BAnd), Num(a), Num(b)))
            && ParseExpression(x + " | " + y) == Ok(Infix(Op(BOr), Num(a), Num(b)))
            && ParseExpression(x + " ^ " + y) == Ok(Infix(Op(BXor), Num(a), Num(b)))
  {
    hide ParseExpression, Decimal.Text;
    var x, y := Decimal.Text(a), Decimal.Text(b);
    forall iop: Infix ensures ParseExpression(Between(x, InfixText(iop), y)) == Ok(Infix(iop, Num(a), Num(b))) {
      InfixAsWritten(iop, a, b);
    }
    assert Between(x, InfixText(Op(Add)), y) == x + " + " + y;
    assert Between(x, InfixText(Op(Sub)), y) == x + " - " + y;
    assert Between(x, InfixText(Op(Mul)), y) == x + " * " + y;
    assert Between(x, InfixText(Op(Div)), y) == x + " / " + y;
    assert Between(x, InfixText(Op(Rem)), y) == x + " % " + y;
    assert Between(x, InfixText(Op(Shl)), y) == x + " << " + y;
    assert Between(x, InfixText(Op(Shr)), y) == x + " >> " + y;
    assert Between(x, InfixText(Op(BAnd)), y) == x + " & " + y;
    assert Between(x, InfixText(Op(BOr)), y) == x + " | " + y;
    assert Between(x, InfixText(Op(BXor)), y) == x + " ^ " + y;
  }

  lemma ComparisonsAsWritten(a: i64, b: i64)
    requires a >= 0 && b >= 0
    ensures var x, y := Decimal.Text(a), Decimal.Text(b);
            && ParseExpression(x + " == " + y) == Ok(Infix(Op(Eq), Num(a), Num(b)))
            && ParseExpression(x + " != " + y) == Ok(Infix(Op(Ne), Num(a), Num(b)))
            && ParseExpression(x + " < " + y) == Ok(Infix(Op(Lt), Num(a), Num(b)))
            && ParseExpression(x + " > " + y) == Ok(Infix(Op(Gt), Num(a), Num(b)))
            && ParseExpression(x + " <= " + y) == Ok(Infix(Op(Le), Num(a), Num(b)))
            && ParseExpression(x + " >= " + y) == Ok(Infix(Op(Ge), Num(a), Num(b)))
            && ParseExpression(x + " && " + y) == Ok(Infix(AndAlso, Num(a), Num(b)))
            && ParseExpression(x + " || " + y) == Ok(Infix(OrElse, Num(a), Num(b)))
  {
    hide ParseExpression, Decimal.Text;
    var x, y := Decimal.Text(a), Decimal.Text(b);
    forall iop: Infix ensures ParseExpression(Between(x, InfixText(iop), y)) == Ok(Infix(iop, Num(a), Num(b))) {
      InfixAsWritten(iop, a, b);
    }
    assert Between(x, InfixText(Op(Eq)), y) == x + " == " + y;
    assert Between(x, InfixText(Op(Ne)), y) == x + " != " + y;
    assert Between(x, InfixText(Op(Lt)), y) == x + " < " + y;
    assert Between(x, InfixText(Op(Gt)), y) == x + " > " + y;
    assert Between(x, InfixText(Op(Le)), y) == x + " <= " + y;
    assert Between(x, InfixText(Op(Ge)), y) == x + " >= " + y;
    assert Between(x, InfixText(AndAlso), y) == x + " && " + y;
    assert Between(x, InfixText(OrElse), y) == x + " || " + y;
  }

  /** The bytes of the unary operators and of the conditional. */
  lemma UnaryAndConditionalAsWritten(a: i64, b: i64, c: i64)
    requires a >= 0 && b >= 0 && c >= 0
    ensures var x, y, z := Decimal.Text(a), Decimal.Text(b), Decimal.Text(c);
            && ParseExpression("+" + x) == Ok(Unary(Plus, Num(a)))
            && ParseExpression("-" + x) == Ok(Unary(Minus, Num(a)))
            && ParseExpression("~" + x) == Ok(Unary(Complement, Num(a)))
            && ParseExpression("!" + x) == Ok(Unary(Not, Num(a)))
            && ParseExpression(x + " ? " + y + " : " + z) == Ok(Cond(Num(a), Num(b), Num(c)))
  {
    hide ParseExpression, Decimal.Text;
    var x := Decimal.Text(a);
    forall uop: UnOp ensures ParseExpression([UnaryChar(uop)] + x) == Ok(Unary(uop, Num(a))) {
      SpellingReadsBack(Unary(uop, Num(a)));
      assert Show(Num(a), UNARY) == x;
    }
    assert [UnaryChar(Plus)] + x == "+" + x;
    assert [UnaryChar(Minus)] + x == "-" + x;
    assert [UnaryChar(Complement)] + x == "~" + x;
    assert [UnaryChar(Not)] + x == "!" + x;
    var e := Cond(Num(a), Num(b), Num(c));
    SpellingReadsBack(e);
    assert Show(e, ASSIGNMENT) == Show(Num(a), INFIX) + " ? " + Show(Num(b), ASSIGNMENT) + " : " + Show(Num(c), ASSIGNMENT);
  }

  /** The bytes of the assignment operators. */
  lemma AssignmentsAsWritten(name: string, b: i64)
    requires IsName(name) && b >= 0
    ensures var y := Decimal.Text(b);
            && ParseExpression(name + " = " + y) == Ok(Assign(name, Plain, Num(b)))
            && ParseExpression(name + " += " + y) == Ok(Assign(name, Compound(Add), Num(b)))
            && ParseExpression(name + " -= " + y) == Ok(Assign(name, Compound(Sub), Num(b)))
            && ParseExpression(name + " *= " + y) == Ok(Assign(name, Compound(Mul), Num(b)))
            && ParseExpression(name + " /= " + y) == Ok(Assign(name, Compound(Div), Num(b)))
            && ParseExpression(name + " %= " + y) == Ok(Assign(name, Compound(Rem), Num(b)))
            && ParseExpression(name + " <<= " + y) == Ok(Assign(name, Compound(Shl), Num(b)))
            && ParseExpression(name + " >>= " + y) == Ok(Assign(name, Compound(Shr), Num(b)))
            && ParseExpression(name + " &= " + y) == Ok(Assign(name, Compound(BAnd), Num(b)))
            && ParseExpression(name + " |= " + y) == Ok(Assign(name, Compound(BOr), Num(b)))
            && ParseExpression(name + " ^= " + y) == Ok(Assign(name, Compound(BXor), Num(b)))
  {
    hide ParseExpression, Decimal.Text, IsName;
    var y := Decimal.Text(b);
    forall aop: AssignOp | aop.Compound? ==> Assignable(aop.op)
      ensures ParseExpression(Between(name, AssignText(aop), y)) == Ok(Assign(name, aop, Num(b)))
    {
      var e := Assign(name, aop, Num(b));
      SpellingReadsBack(e);
      assert Show(Num(b), ASSIGNMENT) == y;
      assert Show(e, ASSIGNMENT) == Between(name, AssignText(aop), y);
    }
    assert Between(name, AssignText(Plain), y) == name + " = " + y;
    assert Between(name, AssignText(Compound(Add)), y) == name + " += " + y;
    assert Between(name, AssignText(Compound(Sub)), y) == name + " -= " + y;
    assert Between(name, AssignText(Compound(Mul)), y) == name + " *= " + y;
    assert Between(name, AssignText(Compound(Div)), y) == name + " /= " + y;
    assert Between(name, AssignText(Compound(Rem)), y) == name + " %= " + y;
    assert Between(name, AssignText(Compound(Shl)), y) == name + " <<= " + y;
    assert Between(name, AssignText(Compound(Shr)), y) == name + " >>= " + y;
    assert Between(name, AssignText(Compound(BAnd)), y) == name + " &= " + y;
    assert Between(name, AssignText(Compound(BOr)), y) == name + " |= " + y;
    assert Between(name, AssignText(Compound(BXor)), y) == name + " ^= " + y;
  }

  // ----- Precedence -----

  lemma InfixShown(iop: Infix, left: Expr, right: Expr)
    requires Rank(left) >= INFIX + Level(iop) && Rank(right) > INFIX + Level(iop)
    ensures Body(Infix(iop, left, right)) == Between(Body(left), InfixText(iop), Body(right))
  {
  }

  lemma NameShown(name: string)
    ensures Body(Var(name)) == name
  {
  }

  function Chain(first: string, second: string): string {
    Between(Between("a", first, "b"), second, "c")
  }

  /** Of two operators, the second takes the operand between them if it binds more tightly. */
  lemma Groups(first: Infix, second: Infix)
    ensures ParseExpression(Chain(InfixText(first), InfixText(second)))
         == Ok(if Level(first) < Level(second) then Infix(first, Var("a"), Infix(second, Var("b"), Var("c")))
               else Infix(second, Infix(first, Var("a"), Var("b")), Var("c")))
  {
    hide ParseExpression, Body;
    NameShown("a");
    NameShown("b");
    NameShown("c");
    if Level(first) < Level(second) {
      var right := Infix(second, Var("b"), Var("c"));
      InfixShown(second, Var("b"), Var("c"));
      InfixShown(first, Var("a"), right);
      SpellingReadsBack(Infix(first, Var("a"), right));
      Rearranged(InfixText(first), InfixText(second));
    } else {
      var left := Infix(first, Var("a"), Var("b"));
      InfixShown(first, Var("a"), Var("b"));
      InfixShown(second, left, Var("c"));
      SpellingReadsBack(Infix(second, left, Var("c")));
    }
  }

  lemma Rearranged(first: string, second: string)
    ensures Between("a", first, Between("b", second, "c")) == Chain(first, second)
  {
    var tail := " " + second + " " + "c";
    assert Between("b", second, "c") == "b" + tail;
    assert Between("a", first, "b" + tail) == Between("a", first, "b") + tail;
  }

  lemma LoosePrecedence()
    ensures ParseExpression("a || b && c") == Ok(Infix(OrElse, Var("a"), Infix(AndAlso, Var("b"), Var("c"))))
    ensures ParseExpression("a && b | c") == Ok(Infix(AndAlso, Var("a"), Infix(Op(BOr), Var("b"), Var("c"))))
    ensures ParseExpression("a | b ^ c") == Ok(Infix(Op(BOr), Var("a"), Infix(Op(BXor), Var("b"), Var("c"))))
    ensures ParseExpression("a ^ b & c") == Ok(Infix(Op(BXor), Var("a"), Infix(Op(BAnd), Var("b"), Var("c"))))
    ensures ParseExpression("a & b == c") == Ok(Infix(Op(BAnd), Var("a"), Infix(Op(Eq), Var("b"), Var("c"))))
  {
    hide ParseExpression;
    Groups(OrElse, AndAlso);
    Groups(AndAlso, Op(BOr));
    Groups(Op(BOr), Op(BXor));
    Groups(Op(BXor), Op(BAnd));
    Groups(Op(BAnd), Op(Eq));
    assert Chain("||", "&&") == "a || b && c";
    assert Chain("&&", "|") == "a && b | c";
    assert Chain("|", "^") == "a | b ^ c";
    assert Chain("^", "&") == "a ^ b & c";
    assert Chain("&", "==") == "a & b == c";
  }

  /** The levels, from loosest to tightest. */
  lemma PrecedenceAsWritten()
    ensures ParseExpression("a || b && c") == Ok(Infix(OrElse, Var("a"), Infix(AndAlso, Var("b"), Var("c"))))
    ensures ParseExpression("a && b | c") == Ok(Infix(AndAlso, Var("a"), Infix(Op(BOr), Var("b"), Var("c"))))
    ensures ParseExpression("a | b ^ c") == Ok(Infix(Op(BOr), Var("a"), Infix(Op(BXor), Var("b"), Var("c"))))
    ensures ParseExpression("a ^ b & c") == Ok(Infix(Op(BXor), Var("a"), Infix(Op(BAnd), Var("b"), Var("c"))))
    ensures ParseExpression("a & b == c") == Ok(Infix(Op(BAnd), Var("a"), Infix(Op(Eq), Var("b"), Var("c"))))
    ensures ParseExpression("a == b < c") == Ok(Infix(Op(Eq), Var("a"), Infix(Op(Lt), Var("b"), Var("c"))))
    ensures ParseExpression("a < b << c") == Ok(Infix(Op(Lt), Var("a"), Infix(Op(Shl), Var("b"), Var("c"))))
    ensures ParseExpression("a << b + c") == Ok(Infix(Op(Shl), Var("a"), Infix(Op(Add), Var("b"), Var("c"))))
    ensures ParseExpression("a + b * c") == Ok(Infix(Op(Add), Var("a"), Infix(Op(Mul), Var("b"), Var("c"))))
  {
    LoosePrecedence();
    hide ParseExpression;
    Groups(Op(Eq), Op(Lt));
    Groups(Op(Lt), Op(Shl));
    Groups(Op(Shl), Op(Add));
    Groups(Op(Add), Op(Mul));
    assert Chain("==", "<") == "a == b < c";
    assert Chain("<", "<<") == "a < b << c";
    assert Chain("<<", "+") == "a << b + c";
    assert Chain("+", "*") == "a + b * c";
  }

  /** Operators of one level group to the left. */
  lemma GroupingAsWritten()
    ensures ParseExpression("a - b + c") == Ok(Infix(Op(Add), Infix(Op(Sub), Var("a"), Var("b")), Var("c")))
    ensures ParseExpression("a * b / c") == Ok(Infix(Op(Div), Infix(Op(Mul), Var("a"), Var("b")), Var("c")))
    ensures ParseExpression("a / b % c") == Ok(Infix(Op(Rem), Infix(Op(Div), Var("a"), Var("b")), Var("c")))
    ensures ParseExpression("a << b >> c") == Ok(Infix(Op(Shr), Infix(Op(Shl), Var("a"), Var("b")), Var("c")))
  {
    hide ParseExpression;
    Groups(Op(Sub), Op(Add));
    Groups(Op(Mul), Op(Div));
    Groups(Op(Div), Op(Rem));
    Groups(Op(Shl), Op(Shr));
    assert Chain("-", "+") == "a - b + c";
    assert Chain("*", "/") == "a * b / c";
    assert Chain("/", "%") == "a / b % c";
    assert Chain("<<", ">>") == "a << b >> c";
  }

  lemma ComparisonsGroupAsWritten()
    ensures ParseExpression("a == b != c") == Ok(Infix(Op(Ne), Infix(Op(Eq), Var("a"), Var("b")), Var("c")))
    ensures ParseExpression("a < b > c") == Ok(Infix(Op(Gt), Infix(Op(Lt), Var("a"), Var("b")), Var("c")))
    ensures ParseExpression("a > b <= c") == Ok(Infix(Op(Le), Infix(Op(Gt), Var("a"), Var("b")), Var("c")))
    ensures ParseExpression("a <= b >= c") == Ok(Infix(Op(Ge), Infix(Op(Le), Var("a"), Var("b")), Var("c")))
  {
    hide ParseExpression;
    Groups(Op(Eq), Op(Ne));
    Groups(Op(Lt), Op(Gt));
    Groups(Op(Gt), Op(Le));
    Groups(Op(Le), Op(Ge));
    assert Chain("==", "!=") == "a == b != c";
    assert Chain("<", ">") == "a < b > c";
    assert Chain(">", "<=") == "a > b <= c";
    assert Chain("<=", ">=") == "a <= b >= c";
  }
}
