/** Writing an expression tree out with the fewest parentheses that the precedence table of
    section 2.6.4 of XCU allows, and reading it back. */
module ArithSpelling {
  import opened Wrappers
  import opened Int64
  import opened Bytes
  import opened ArithSyntax
  import Decimal
  import ArithSemantics

  // ---------------------------------------------------------------- spelling

  predicate IsName(s: string) {
    s != "" && IsNameStart(s[0]) && forall k :: 0 <= k < |s| ==> InClass(NameChar, s[k])
  }

  /** There is a compound assignment with this operator. */
  predicate Assignable(op: BinOp) {
    op in {BOr, BXor, BAnd, Shl, Shr, Add, Sub, Mul, Div, Rem}
  }

  /** Constants are not negative, names are names. */
  predicate Writable(e: Expr) {
    match e
    case Num(v) => v >= 0
    case Var(name) => IsName(name)
    case Unary(_, arg) => Writable(arg)
    case Infix(_, left, right) => Writable(left) && Writable(right)
    case Cond(test, yes, no) => Writable(test) && Writable(yes) && Writable(no)
    case Assign(target, aop, rhs) => IsName(target) && (aop.Compound? ==> Assignable(aop.op)) && Writable(rhs)
  }

  function OpText(op: BinOp): string {
    match op
    case BOr => "|"
    case BXor => "^"
    case BAnd => "&"
    case Eq => "=="
    case Ne => "!="
    case Le => "<="
    case Ge => ">="
    case Lt => "<"
    case Gt => ">"
    case Shl => "<<"
    case Shr => ">>"
    case Add => "+"
    case Sub => "-"
    case Mul => "*"
    case Div => "/"
    case Rem => "%"
  }

  function InfixText(iop: Infix): string {
    match iop
    case OrElse => "||"
    case AndAlso => "&&"
    case Op(op) => OpText(op)
  }

  function AssignText(aop: AssignOp): string {
    match aop
    case Plain => "="
    case Compound(op) => OpText(op) + "="
  }

  function UnaryChar(uop: UnOp): char {
    match uop
    case Plus => '+'
    case Minus => '-'
    case Complement => '~'
    case Not => '!'
  }

  /** How tightly the operator binds, loosest first. */
  function Level(iop: Infix): (level: nat)
    ensures level < UNARY_LEVEL
  {
    match iop
    case OrElse => 0
    case AndAlso => 1
    case Op(op) =>
      match op
      case BOr => 2
      case BXor => 3
      case BAnd => 4
      case Eq => 5
      case Ne => 5
      case Le => 6
      case Ge => 6
      case Lt => 6
      case Gt => 6
      case Shl => 7
      case Shr => 7
      case Add => 8
      case Sub => 8
      case Mul => 9
      case Div => 9
      case Rem => 9
  }

  const ASSIGNMENT: nat := 0
  const TERNARY: nat := 1
  const INFIX: nat := 2
  const UNARY: nat := 12
  const PRIMARY: nat := 13

  function Rank(e: Expr): (p: nat)
    ensures p <= PRIMARY
  {
    match e
    case Num(_) => PRIMARY
    case Var(_) => PRIMARY
    case Unary(_, _) => UNARY
    case Infix(iop, _, _) => INFIX + Level(iop)
    case Cond(_, _, _) => TERNARY
    case Assign(_, _, _) => ASSIGNMENT
  }

  function Body(e: Expr): string
    decreases e, 0
  {
    match e
    case Num(v) => Decimal.Text(v)
    case Var(name) => name
    case Unary(uop, arg) => [UnaryChar(uop)] + Show(arg, UNARY)
    case Infix(iop, left, right) =>
      Show(left, INFIX + Level(iop)) + " " + InfixText(iop) + " " + Show(right, INFIX + Level(iop) + 1)
    case Cond(test, yes, no) =>
      Show(test, INFIX) + " ? " + Show(yes, ASSIGNMENT) + " : " + Show(no, ASSIGNMENT)
    case Assign(target, aop, rhs) => target + " " + AssignText(aop) + " " + Show(rhs, ASSIGNMENT)
  }

  /** `e` where something that binds at least as tightly as `rank` is wanted. */
  function Show(e: Expr, rank: nat): string
    decreases e, 1
  {
    if Rank(e) < rank then "(" + Body(e) + ")" else Body(e)
  }

  // ---------------------------------------------------------------- positions in the text

  lemma LooksAtSplit(s: string, i: nat, a: string, b: string)
    requires LooksAt(s, i, a + b)
    ensures LooksAt(s, i, a) && LooksAt(s, i + |a|, b)
  {
    assert s[i..i + |a + b|][..|a|] == a;
    assert s[i..i + |a + b|][|a|..] == b;
  }

  lemma LooksAtByte(s: string, i: nat, word: string, k: nat)
    requires LooksAt(s, i, word) && k < |word|
    ensures At(s, i + k, word[k])
  {
    assert s[i..i + |word|][k] == s[i + k];
  }

  lemma RunEndsAt(cls: ByteClass, s: string, i: nat, end: nat)
    requires i <= end <= |s|
    requires forall k :: i <= k < end ==> InClass(cls, s[k])
    requires end < |s| ==> !InClass(cls, s[end])
    ensures RunEnd(cls, s, i) == end
  {
  }

  /** A token ends here: the text ends, or a space or parenthesis follows. */
  predicate TokenEnd(s: string, i: nat) {
    i == |s| || At(s, i, ' ') || At(s, i, ')')
  }

  /** Nothing at `j` continues an expression of this rank. */
  ghost predicate Follow(rank: nat, s: string, j: nat) {
    && AssignOpAt(s, j) == None
    && (rank <= TERNARY ==> !At(s, j, '?'))
    && forall level: nat :: level < UNARY_LEVEL && rank <= INFIX + level ==> InfixAt(level, s, j) == None
  }

  ghost predicate Closed(rank: nat, s: string, end: nat) {
    end <= |s| && TokenEnd(s, end) && Follow(rank, s, SkipWs(s, end))
  }

  /** `AssignOpAt` in terms of single bytes. */
  lemma AssignBytes(s: string, j: nat)
    ensures LooksAt(s, j, "=") <==> At(s, j, '=')
    ensures LooksAt(s, j, "==") <==> At(s, j, '=') && At(s, j + 1, '=')
    ensures LooksAt(s, j, "&=") <==> At(s, j, '&') && At(s, j + 1, '=')
    ensures LooksAt(s, j, "^=") <==> At(s, j, '^') && At(s, j + 1, '=')
    ensures LooksAt(s, j, "|=") <==> At(s, j, '|') && At(s, j + 1, '=')
    ensures LooksAt(s, j, "*=") <==> At(s, j, '*') && At(s, j + 1, '=')
    ensures LooksAt(s, j, "/=") <==> At(s, j, '/') && At(s, j + 1, '=')
    ensures LooksAt(s, j, "%=") <==> At(s, j, '%') && At(s, j + 1, '=')
    ensures LooksAt(s, j, "+=") <==> At(s, j, '+') && At(s, j + 1, '=')
    ensures LooksAt(s, j, "-=") <==> At(s, j, '-') && At(s, j + 1, '=')
    ensures LooksAt(s, j, "<<=") <==> At(s, j, '<') && At(s, j + 1, '<') && At(s, j + 2, '=')
    ensures LooksAt(s, j, ">>=") <==> At(s, j, '>') && At(s, j + 1, '>') && At(s, j + 2, '=')
  {
    LooksAtOne(s, j, '=');
    LooksAtTwo(s, j, '=', '=');
    LooksAtTwo(s, j, '&', '=');
    LooksAtTwo(s, j, '^', '=');
    LooksAtTwo(s, j, '|', '=');
    LooksAtTwo(s, j, '*', '=');
    LooksAtTwo(s, j, '/', '=');
    LooksAtTwo(s, j, '%', '=');
    LooksAtTwo(s, j, '+', '=');
    LooksAtTwo(s, j, '-', '=');
    LooksAtThree(s, j, '<', '<', '=');
    LooksAtThree(s, j, '>', '>', '=');
  }

  lemma LooksAtThree(s: string, j: nat, a: char, b: char, c: char)
    ensures LooksAt(s, j, [a, b, c]) <==> At(s, j, a) && At(s, j + 1, b) && At(s, j + 2, c)
  {
    if j + 2 < |s| {
      assert s[j..j + 3] == [s[j], s[j + 1], s[j + 2]];
    }
  }

  /** `InfixAt` in terms of single bytes. */
  lemma InfixBytes(s: string, j: nat)
    ensures LooksAt(s, j, "||") <==> At(s, j, '|') && At(s, j + 1, '|')
    ensures LooksAt(s, j, "&&") <==> At(s, j, '&') && At(s, j + 1, '&')
    ensures LooksAt(s, j, "==") <==> At(s, j, '=') && At(s, j + 1, '=')
    ensures LooksAt(s, j, "!=") <==> At(s, j, '!') && At(s, j + 1, '=')
    ensures LooksAt(s, j, "<=") <==> At(s, j, '<') && At(s, j + 1, '=')
    ensures LooksAt(s, j, ">=") <==> At(s, j, '>') && At(s, j + 1, '=')
  {
    LooksAtTwo(s, j, '|', '|');
    LooksAtTwo(s, j, '&', '&');
    LooksAtTwo(s, j, '=', '=');
    LooksAtTwo(s, j, '!', '=');
    LooksAtTwo(s, j, '<', '=');
    LooksAtTwo(s, j, '>', '=');
  }

  /** The bytes of an operator. */
  predicate Spelled(s: string, j: nat, text: string) {
    && 1 <= |text| <= 3
    && At(s, j, text[0])
    && (|text| > 1 ==> At(s, j + 1, text[1]))
    && (|text| > 2 ==> At(s, j + 2, text[2]))
    && At(s, j + |text|, ' ')
  }

  lemma SpelledBytes(s: string, j: nat, text: string)
    requires 1 <= |text| <= 3 && LooksAt(s, j, text) && At(s, j + |text|, ' ')
    ensures Spelled(s, j, text)
  {
    LooksAtByte(s, j, text, 0);
    if |text| > 1 {
      LooksAtByte(s, j, text, 1);
    }
    if |text| > 2 {
      LooksAtByte(s, j, text, 2);
    }
  }

  /** An operator followed by a space is recognised at its own level and at no other. */
  lemma OperatorIsRead(iop: Infix, s: string, j: nat)
    requires Spelled(s, j, InfixText(iop))
    ensures InfixAt(Level(iop), s, j) == Some((iop, |InfixText(iop)|))
    ensures forall level: nat :: level < UNARY_LEVEL && level != Level(iop) ==> InfixAt(level, s, j) == None
    ensures AssignOpAt(s, j) == None
    ensures j < |s| && !InClass(Space, s[j])
  {
    hide LooksAt;
    forall level: nat | level < UNARY_LEVEL
      ensures InfixAt(level, s, j) == if level == Level(iop) then Some((iop, |InfixText(iop)|)) else None
    {
      OperatorAtLevel(iop, s, j, level);
    }
    AssignBytes(s, j);
  }

  lemma OperatorAtLevel(iop: Infix, s: string, j: nat, level: nat)
    requires Spelled(s, j, InfixText(iop)) && level < UNARY_LEVEL
    ensures InfixAt(level, s, j) == if level == Level(iop) then Some((iop, |InfixText(iop)|)) else None
  {
    hide LooksAt;
    InfixBytes(s, j);
  }

  /** No operator begins with one of these bytes. */
  lemma DelimiterIsNoOperator(s: string, j: nat)
    requires j <= |s| && (j == |s| || s[j] in "?:)")
    ensures AssignOpAt(s, j) == None
    ensures forall level: nat :: InfixAt(level, s, j) == None
  {
    hide LooksAt;
    InfixBytes(s, j);
    AssignBytes(s, j);
  }

  lemma AssignmentIsRead(aop: AssignOp, s: string, j: nat)
    requires aop.Compound? ==> Assignable(aop.op)
    requires Spelled(s, j, AssignText(aop))
    ensures AssignOpAt(s, j) == Some((aop, |AssignText(aop)|))
    ensures j < |s| && !InClass(Space, s[j])
  {
    hide LooksAt;
    AssignBytes(s, j);
  }

  // ---------------------------------------------------------------- one rank down at a time

  function ParseAt(rank: nat, s: string, i: nat): (r: ParseResult)
    requires i <= |s| && rank <= PRIMARY
    ensures Advances(r, s, i)
  {
    if rank == ASSIGNMENT then ParseAssignment(s, i)
    else if rank == TERNARY then ParseTernary(s, i)
    else if rank <= UNARY then ParseLevel(rank - INFIX, s, i)
    else ParsePrimary(s, i)
  }

  /** The parse succeeded with this tree, and stopped at `end` up to white space. */
  predicate Reads(r: ParseResult, e: Expr, s: string, end: nat) {
    && end <= |s|
    && r.Ok?
    && r.value.expr == e
    && end <= r.value.next <= |s|
    && SkipWs(s, r.value.next) == SkipWs(s, end)
  }

  lemma SkipTwice(s: string, i: nat)
    requires i <= |s|
    ensures SkipWs(s, SkipWs(s, i)) == SkipWs(s, i)
  {
  }

  lemma NoSpaceHere(s: string, i: nat)
    requires i < |s| && !InClass(Space, s[i])
    ensures SkipWs(s, i) == i
  {
  }

  lemma OneSpace(s: string, i: nat)
    requires At(s, i, ' ') && i + 1 < |s| && !InClass(Space, s[i + 1])
    ensures SkipWs(s, i) == i + 1
  {
  }

  lemma {:induction false} LeadingSpaceIsSkipped(rank: nat, s: string, i: nat)
    requires i <= |s| && rank <= PRIMARY
    ensures ParseAt(rank, s, i) == ParseAt(rank, s, SkipWs(s, i))
    decreases PRIMARY - rank
  {
    if rank == UNARY {
      UnarySkips(s, i);
    } else if rank == PRIMARY {
      PrimarySkips(s, i);
    } else if rank == ASSIGNMENT {
      AssignmentSkips(s, i);
    } else {
      LeadingSpaceIsSkipped(rank + 1, s, i);
      hide RunEnd, ParseUnary, ParsePrimary, InfixAt, ParseAssignment;
    }
  }

  lemma AssignmentSkips(s: string, i: nat)
    requires i <= |s|
    ensures ParseAssignment(s, i) == ParseAssignment(s, SkipWs(s, i))
  {
    hide RunEnd, ParseTernary, ParseAssignment, AssignOpAt, LooksAt, InClass;
    SkipTwice(s, i);
    AssignmentUnfolds(s, i);
    AssignmentUnfolds(s, SkipWs(s, i));
  }

  lemma UnarySkips(s: string, i: nat)
    requires i <= |s|
    ensures ParseLevel(UNARY_LEVEL, s, i) == ParseLevel(UNARY_LEVEL, s, SkipWs(s, i))
  {
    SkipTwice(s, i);
    hide RunEnd, ParsePrimary, UnOpAt;
    assert ParseLevel(UNARY_LEVEL, s, i) == ParseUnary(s, i);
    assert ParseLevel(UNARY_LEVEL, s, SkipWs(s, i)) == ParseUnary(s, SkipWs(s, i));
  }

  lemma PrimarySkips(s: string, i: nat)
    requires i <= |s|
    ensures ParsePrimary(s, i) == ParsePrimary(s, SkipWs(s, i))
  {
    SkipTwice(s, i);
    hide RunEnd, ParseAssignment, ParseNumber;
  }

  /** The name at `i`, if there is one, is not the target of an assignment. */
  predicate NotAssigned(s: string, i: nat) {
    NameAt(s, i) ==> AssignOpAt(s, SkipWs(s, RunEnd(NameChar, s, i + 1))) == None
  }

  /** A parse at one rank is also the parse at the rank below, if nothing continues it. */
  lemma StepDown(e: Expr, rank: nat, s: string, i: nat, end: nat)
    requires ASSIGNMENT < rank <= PRIMARY && i < |s| && !InClass(Space, s[i])
    requires Reads(ParseAt(rank, s, i), e, s, end) && Closed(rank - 1, s, end)
    requires rank == PRIMARY ==> UnOpAt(s, i) == None
    requires rank == TERNARY ==> NotAssigned(s, i)
    ensures Reads(ParseAt(rank - 1, s, i), e, s, end)
  {
    NoSpaceHere(s, i);
    var p := ParseAt(rank, s, i).value;
    SkipTwice(s, p.next);
    hide RunEnd, ParseUnary, ParsePrimary, UnOpAt, InfixAt;
    if rank == PRIMARY {
      UnaryOfPrimary(s, i);
    } else if INFIX < rank {
      LevelOfNext(e, rank - INFIX - 1, s, i);
    }
  }

  lemma UnaryOfPrimary(s: string, i: nat)
    requires i < |s| && !InClass(Space, s[i]) && UnOpAt(s, i) == None
    ensures ParseAt(UNARY, s, i) == ParseAt(PRIMARY, s, i)
  {
    NoSpaceHere(s, i);
    assert ParseLevel(UNARY_LEVEL, s, i) == ParseUnary(s, i);
  }

  lemma LevelOfNext(e: Expr, level: nat, s: string, i: nat)
    requires i <= |s| && level < UNARY_LEVEL
    requires ParseLevel(level + 1, s, i).Ok? && ParseLevel(level + 1, s, i).value.expr == e
    ensures ParseLevel(level, s, i) == ParseRest(level, e, s, ParseLevel(level + 1, s, i).value.next)
    ensures (var j := SkipWs(s, ParseLevel(level + 1, s, i).value.next);
             InfixAt(level, s, j) == None ==> ParseLevel(level, s, i) == Ok(Parsed(e, j)))
  {
  }

  lemma {:induction false} StepsDown(e: Expr, from: nat, to: nat, s: string, i: nat, end: nat)
    requires to <= from <= PRIMARY && i < |s| && !InClass(Space, s[i])
    requires Reads(ParseAt(from, s, i), e, s, end) && Closed(to, s, end)
    requires from == PRIMARY ==> UnOpAt(s, i) == None
    requires to == ASSIGNMENT < from ==> NotAssigned(s, i)
    ensures Reads(ParseAt(to, s, i), e, s, end)
    decreases from
  {
    if to < from {
      StepDown(e, from, s, i, end);
      StepsDown(e, from - 1, to, s, i, end);
    }
  }

  // ---------------------------------------------------------------- how spellings begin

  /** A spelling is not empty and begins with no space and no equals sign; at the tightest
      rank it does not begin with a unary operator either. */
  lemma {:induction false} SpellingBegins(e: Expr, rank: nat, s: string, i: nat)
    requires Writable(e) && LooksAt(s, i, Show(e, rank))
    ensures i < |s| && !InClass(Space, s[i]) && s[i] != '='
    ensures rank >= PRIMARY ==> UnOpAt(s, i) == None
    decreases e
  {
    if Rank(e) < rank {
      LooksAtByte(s, i, Show(e, rank), 0);
    } else {
      var body := Body(e);
      match e {
        case Num(v) =>
          Decimal.NumeralStartsWithDigit(Decimal.Ten, v);
          LooksAtByte(s, i, body, 0);
        case Var(name) =>
          LooksAtByte(s, i, body, 0);
        case Unary(_, _) =>
          LooksAtByte(s, i, body, 0);
        case Infix(iop, left, right) =>
          InfixBody(iop, left, right);
          LooksAtSplit(s, i, Show(left, INFIX + Level(iop)), AfterLeft(iop, right));
          SpellingBegins(left, INFIX + Level(iop), s, i);
        case Cond(test, yes, no) =>
          CondBody(test, yes, no);
          LooksAtSplit(s, i, Show(test, INFIX), AfterTest(yes, no));
          SpellingBegins(test, INFIX, s, i);
        case Assign(target, _, _) =>
          LooksAtByte(s, i, body, 0);
      }
    }
  }

  function AfterLeft(iop: Infix, right: Expr): string {
    " " + (InfixText(iop) + (" " + Show(right, INFIX + Level(iop) + 1)))
  }

  function AfterTest(yes: Expr, no: Expr): string {
    " ? " + (Show(yes, ASSIGNMENT) + (" : " + Show(no, ASSIGNMENT)))
  }

  lemma {:induction false} InfixBody(iop: Infix, left: Expr, right: Expr)
    ensures Body(Infix(iop, left, right)) == Show(left, INFIX + Level(iop)) + AfterLeft(iop, right)
  {
  }

  lemma CondBody(test: Expr, yes: Expr, no: Expr)
    ensures Body(Cond(test, yes, no)) == Show(test, INFIX) + AfterTest(yes, no)
  {
  }

  /** What follows the left operand: one space and an operator. */
  lemma OperatorFollows(iop: Infix, right: Expr, s: string, m: nat)
    requires LooksAt(s, m, AfterLeft(iop, right))
    ensures At(s, m, ' ') && SkipWs(s, m) == m + 1
    ensures Spelled(s, m + 1, InfixText(iop))
    ensures LooksAt(s, m + 2 + |InfixText(iop)|, Show(right, INFIX + Level(iop) + 1))
  {
    hide LooksAt, Show, RunEnd;
    var text := InfixText(iop);
    var tail := " " + Show(right, INFIX + Level(iop) + 1);
    LooksAtSplit(s, m, " ", text + tail);
    LooksAtByte(s, m, " ", 0);
    LooksAtSplit(s, m + 1, text, tail);
    LooksAtSplit(s, m + 1 + |text|, " ", Show(right, INFIX + Level(iop) + 1));
    LooksAtByte(s, m + 1 + |text|, " ", 0);
    SpelledBytes(s, m + 1, text);
    OperatorIsRead(iop, s, m + 1);
    OneSpace(s, m);
  }

  lemma SpacedByte(s: string, m: nat, c: char)
    requires LooksAt(s, m, [' ', c, ' ']) && !InClass(Space, c)
    ensures At(s, m, ' ') && At(s, m + 1, c) && At(s, m + 2, ' ') && SkipWs(s, m) == m + 1
  {
    LooksAtThree(s, m, ' ', c, ' ');
    OneSpace(s, m);
  }

  /** Where the two arms of a conditional stand. */
  lemma ArmsFollow(yes: Expr, no: Expr, s: string, m: nat)
    requires LooksAt(s, m, AfterTest(yes, no))
    ensures (var k := m + 3 + |Show(yes, ASSIGNMENT)|;
             && At(s, m, ' ') && At(s, m + 1, '?') && SkipWs(s, m) == m + 1
             && At(s, m + 2, ' ') && LooksAt(s, m + 3, Show(yes, ASSIGNMENT))
             && At(s, k, ' ') && At(s, k + 1, ':') && SkipWs(s, k) == k + 1
             && At(s, k + 2, ' ') && LooksAt(s, k + 3, Show(no, ASSIGNMENT)))
  {
    hide LooksAt, Show, RunEnd;
    var y, n := Show(yes, ASSIGNMENT), Show(no, ASSIGNMENT);
    LooksAtSplit(s, m, " ? ", y + (" : " + n));
    SpacedByte(s, m, '?');
    LooksAtSplit(s, m + 3, y, " : " + n);
    var k := m + 3 + |y|;
    LooksAtSplit(s, k, " : ", n);
    SpacedByte(s, k, ':');
  }

  lemma NameEnds(s: string, i: nat, name: string)
    requires IsName(name) && LooksAt(s, i, name) && TokenEnd(s, i + |name|)
    ensures i < |s| && i + |name| <= |s| && !InClass(Space, s[i]) && NameAt(s, i) && RunEnd(NameChar, s, i + 1) == i + |name|
  {
    forall k | i <= k < i + |name| ensures InClass(NameChar, s[k]) {
      LooksAtByte(s, i, name, k - i);
      assert s[k] == name[k - i];
    }
    LooksAtByte(s, i, name, 0);
    RunEndsAt(NameChar, s, i + 1, i + |name|);
  }

  /** A spelling that is not itself an assignment does not begin like one. */
  lemma {:induction false} BeginsUnassigned(e: Expr, rank: nat, s: string, i: nat)
    requires Writable(e) && LooksAt(s, i, Show(e, rank)) && (e.Assign? ==> rank > ASSIGNMENT)
    requires Closed(PRIMARY, s, i + |Show(e, rank)|)
    ensures i < |s| && NotAssigned(s, i)
    decreases e
  {
    hide LooksAt, RunEnd, InfixAt, AssignOpAt, Body, Show;
    SpellingBegins(e, rank, s, i);
    ShowIs(e, rank);
    if Rank(e) < rank || e.Num? || e.Unary? {
      BeginsWithoutName(e, rank, s, i);
    } else {
      match e {
        case Var(name) =>
          NameIsNotAssigned(name, s, i);
        case Infix(iop, left, right) =>
          var m := LeftIsRead(iop, left, right, s, i);
          BeginsUnassigned(left, INFIX + Level(iop), s, i);
        case Cond(test, yes, no) =>
          var m := TestIsRead(test, yes, no, s, i);
          BeginsUnassigned(test, INFIX, s, i);
        case _ =>
      }
    }
  }

  lemma ShowIs(e: Expr, rank: nat)
    ensures Show(e, rank) == if Rank(e) < rank then "(" + Body(e) + ")" else Body(e)
  {
  }

  lemma NameIsNotAssigned(name: string, s: string, i: nat)
    requires IsName(name) && LooksAt(s, i, Body(Var(name))) && Closed(PRIMARY, s, i + |Body(Var(name))|)
    ensures i < |s| && NotAssigned(s, i)
  {
    NameEnds(s, i, name);
  }

  lemma BeginsWithoutName(e: Expr, rank: nat, s: string, i: nat)
    requires Writable(e) && LooksAt(s, i, Show(e, rank)) && i < |s|
    requires Rank(e) < rank || e.Num? || e.Unary?
    ensures !IsNameStart(s[i])
  {
    if Rank(e) < rank {
      LooksAtByte(s, i, Show(e, rank), 0);
    } else {
      LooksAtByte(s, i, Body(e), 0);
      if e.Num? {
        Decimal.NumeralStartsWithDigit(Decimal.Ten, e.value);
      }
    }
  }

  /** The left operand stands at `i`, and nothing that binds more tightly continues it. */
  lemma LeftIsRead(iop: Infix, left: Expr, right: Expr, s: string, i: nat) returns (m: nat)
    requires LooksAt(s, i, Body(Infix(iop, left, right)))
    ensures m == i + |Show(left, INFIX + Level(iop))|
    ensures LooksAt(s, i, Show(left, INFIX + Level(iop))) && LooksAt(s, m, AfterLeft(iop, right))
    ensures Closed(INFIX + Level(iop) + 1, s, m) && Closed(PRIMARY, s, m)
  {
    InfixBody(iop, left, right);
    hide LooksAt, RunEnd, InfixAt, AssignOpAt, Body, Show;
    m := i + |Show(left, INFIX + Level(iop))|;
    LooksAtSplit(s, i, Show(left, INFIX + Level(iop)), AfterLeft(iop, right));
    OperatorFollows(iop, right, s, m);
    OperatorIsRead(iop, s, m + 1);
  }

  lemma TestIsRead(test: Expr, yes: Expr, no: Expr, s: string, i: nat) returns (m: nat)
    requires LooksAt(s, i, Body(Cond(test, yes, no)))
    ensures m == i + |Show(test, INFIX)|
    ensures LooksAt(s, i, Show(test, INFIX)) && LooksAt(s, m, AfterTest(yes, no))
    ensures Closed(INFIX, s, m) && Closed(PRIMARY, s, m)
  {
    CondBody(test, yes, no);
    hide LooksAt, RunEnd, InfixAt, AssignOpAt, Body, Show;
    m := i + |Show(test, INFIX)|;
    LooksAtSplit(s, i, Show(test, INFIX), AfterTest(yes, no));
    ArmsFollow(yes, no, s, m);
    DelimiterIsNoOperator(s, m + 1);
  }

  // ---------------------------------------------------------------- reading, form by form

  lemma ReadsNumber(v: i64, s: string, i: nat)
    requires v >= 0 && LooksAt(s, i, Decimal.Text(v)) && TokenEnd(s, i + |Decimal.Text(v)|)
    ensures i < |s| && Reads(ParsePrimary(s, i), Num(v), s, i + |Decimal.Text(v)|)
  {
    hide RunEnd, LooksAt, Decimal.ParseSigned, Decimal.Text, Decimal.Numeral, InClass, ParseNumber;
    var t := Decimal.Text(v);
    TextOfConstant(v);
    DigitRun(t, s, i);
    WordAt(s, i, t);
    DigitIsNoName(s, i);
    NumberIsRead(v, s, i, i + |t|);
  }

  /** The text of a constant: digits, with a leading 0 only for 0. */
  lemma TextOfConstant(v: i64)
    requires v >= 0
    ensures (var t := Decimal.Text(v);
             && t != "" && (forall k :: 0 <= k < |t| ==> IsDigit(t[k]))
             && (t[0] == '0' <==> v == 0) && (v == 0 ==> |t| == 1)
             && Decimal.ParseSigned(t) == Some(v))
  {
    var t := Decimal.Numeral(Decimal.Ten, v);
    Decimal.ParseInvertsText(v);
    ArithSemantics.NumeralLeadingDigit(v);
    Decimal.NumeralDenotes(Decimal.Ten, v);
    forall k | 0 <= k < |t| ensures IsDigit(t[k]) {
      assert Decimal.DigitOf(Decimal.Ten, t[k]).Some?;
    }
  }

  lemma DigitRun(t: string, s: string, i: nat)
    requires t != "" && (forall k :: 0 <= k < |t| ==> IsDigit(t[k]))
    requires LooksAt(s, i, t) && TokenEnd(s, i + |t|)
    ensures i < |s| && s[i] == t[0] && RunEnd(Digit, s, i) == i + |t|
  {
    forall k | i <= k < i + |t| ensures k < |s| && IsDigit(s[k]) {
      LooksAtByte(s, i, t, k - i);
    }
    LooksAtByte(s, i, t, 0);
    RunEndsAt(Digit, s, i, i + |t|);
  }

  lemma DigitIsNoName(s: string, i: nat)
    requires i < |s| && IsDigit(s[i])
    ensures SkipWs(s, i) == i && ParsePrimary(s, i) == ParseNumber(s, i)
  {
    NoSpaceHere(s, i);
    hide ParseNumber, RunEnd;
  }

  lemma NumberIsRead(v: i64, s: string, i: nat, end: nat)
    requires v >= 0 && i < end <= |s| && IsDigit(s[i]) && (s[i] == '0' <==> v == 0) && (v == 0 ==> end == i + 1)
    requires RunEnd(Digit, s, i) == end && Decimal.ParseSigned(s[i..end]) == Some(v) && TokenEnd(s, end)
    ensures ParseNumber(s, i) == Ok(Parsed(Num(v), end))
  {
    hide RunEnd, Decimal.ParseSigned, Decimal.ParseRadix;
  }

  lemma ReadsName(name: string, s: string, i: nat)
    requires IsName(name) && LooksAt(s, i, name) && TokenEnd(s, i + |name|)
    ensures i < |s| && Reads(ParsePrimary(s, i), Var(name), s, i + |name|)
  {
    NameEnds(s, i, name);
    NoSpaceHere(s, i);
  }

  lemma ReadsUnary(uop: UnOp, arg: Expr, s: string, i: nat, end: nat)
    requires At(s, i, UnaryChar(uop)) && !At(s, i + 1, '=')
    requires Reads(ParseAt(UNARY, s, i + 1), arg, s, end)
    ensures Reads(ParseAt(UNARY, s, i), Unary(uop, arg), s, end)
  {
    hide RunEnd, ParseUnary, ParsePrimary, ParseLevel, UnOpAt, InClass;
    UnaryUnfolds(uop, s, i);
  }

  lemma UnaryUnfolds(uop: UnOp, s: string, i: nat)
    requires At(s, i, UnaryChar(uop)) && !At(s, i + 1, '=')
    ensures ParseAt(UNARY, s, i)
         == match ParseAt(UNARY, s, i + 1)
            case Err(e) => Err(e)
            case Ok(p) => Ok(Parsed(Unary(uop, p.expr), p.next))
  {
    NoSpaceHere(s, i);
    assert UnOpAt(s, i) == Some(uop);
    hide RunEnd, ParsePrimary, UnOpAt, InClass;
    assert ParseLevel(UNARY_LEVEL, s, i) == ParseUnary(s, i);
    assert ParseLevel(UNARY_LEVEL, s, i + 1) == ParseUnary(s, i + 1);
  }

  lemma ReadsParenthesized(e: Expr, s: string, i: nat, end: nat)
    requires i + 1 < end <= |s| && s[i] == '(' && s[end - 1] == ')'
    requires Reads(ParseAt(ASSIGNMENT, s, i + 1), e, s, end - 1)
    ensures Reads(ParseAt(PRIMARY, s, i), e, s, end)
  {
    NoSpaceHere(s, i);
    NoSpaceHere(s, end - 1);
    SkipTwice(s, end);
    hide RunEnd, ParseAssignment, ParseNumber;
  }

  lemma WordAt(s: string, i: nat, word: string)
    requires LooksAt(s, i, word)
    ensures i + |word| <= |s| && s[i..i + |word|] == word
  {
  }

  lemma ReadsAssignment(target: string, aop: AssignOp, rhs: Expr, s: string, i: nat, end: nat)
    requires IsName(target) && (aop.Compound? ==> Assignable(aop.op))
    requires LooksAt(s, i, target) && At(s, i + |target|, ' ') && Spelled(s, i + |target| + 1, AssignText(aop))
    requires (var k := i + |target| + 1 + |AssignText(aop)|;
              k < |s| && Reads(ParseAt(ASSIGNMENT, s, k + 1), rhs, s, end) && SkipWs(s, k) == k + 1)
    ensures i < |s| && Reads(ParseAt(ASSIGNMENT, s, i), Assign(target, aop, rhs), s, end)
  {
    hide RunEnd, AssignOpAt, ParseTernary, LooksAt, InClass, IsName;
    var k := i + |target|;
    NameEnds(s, i, target);
    NoSpaceHere(s, i);
    AssignmentIsRead(aop, s, k + 1);
    OneSpace(s, k);
    LeadingSpaceIsSkipped(ASSIGNMENT, s, k + 1 + |AssignText(aop)|);
    WordAt(s, i, target);
  }

  lemma ReadsConditional(test: Expr, yes: Expr, no: Expr, s: string, i: nat, m: nat, k: nat, end: nat)
    requires i <= |s| && Reads(ParseAt(INFIX, s, i), test, s, m)
    requires SkipWs(s, m) == m + 1 && At(s, m + 1, '?') && m + 3 <= |s| && SkipWs(s, m + 2) == m + 3
    requires Reads(ParseAt(ASSIGNMENT, s, m + 3), yes, s, k)
    requires SkipWs(s, k) == k + 1 && At(s, k + 1, ':') && k + 3 <= |s| && SkipWs(s, k + 2) == k + 3
    requires Reads(ParseAt(ASSIGNMENT, s, k + 3), no, s, end)
    ensures Reads(ParseAt(TERNARY, s, i), Cond(test, yes, no), s, end)
  {
    hide RunEnd, ParseLevel, ParseAssignment, InClass;
    LeadingSpaceIsSkipped(ASSIGNMENT, s, m + 2);
    LeadingSpaceIsSkipped(ASSIGNMENT, s, k + 2);
  }

  /** One turn of the loop over the operators of a level. */
  lemma RestUnfolds(iop: Infix, left: Expr, right: Expr, s: string, n: nat, j: nat, next: nat)
    requires n <= |s| && SkipWs(s, n) == j && InfixAt(Level(iop), s, j) == Some((iop, |InfixText(iop)|))
    requires j + |InfixText(iop)| <= next <= |s|
    requires ParseLevel(Level(iop) + 1, s, j + |InfixText(iop)|) == Ok(Parsed(right, next))
    ensures ParseRest(Level(iop), left, s, n) == ParseRest(Level(iop), Infix(iop, left, right), s, next)
  {
    hide RunEnd, InfixAt, ParseLevel, Level, InfixText;
  }

  lemma RestTurns(iop: Infix, left: Expr, right: Expr, s: string, n: nat, m: nat, end: nat) returns (next: nat)
    requires n <= |s| && SkipWs(s, n) == m + 1 && Spelled(s, m + 1, InfixText(iop))
    requires (var k := m + 1 + |InfixText(iop)|;
              k < |s| && SkipWs(s, k) == k + 1 && Reads(ParseAt(INFIX + Level(iop) + 1, s, k + 1), right, s, end))
    ensures end <= next <= |s| && SkipWs(s, next) == SkipWs(s, end)
    ensures ParseRest(Level(iop), left, s, n) == ParseRest(Level(iop), Infix(iop, left, right), s, next)
  {
    hide RunEnd, InfixAt, ParseLevel, ParseRest, LooksAt, Level, InfixText, AssignOpAt;
    var k := m + 1 + |InfixText(iop)|;
    OperatorIsRead(iop, s, m + 1);
    LeadingSpaceIsSkipped(INFIX + Level(iop) + 1, s, k);
    var p := ParseLevel(Level(iop) + 1, s, k).value;
    next := p.next;
    RestUnfolds(iop, left, right, s, n, m + 1, next);
  }

  lemma AssignBody(target: string, aop: AssignOp, rhs: Expr)
    ensures Body(Assign(target, aop, rhs)) == target + (" " + (AssignText(aop) + (" " + Show(rhs, ASSIGNMENT))))
    ensures |Body(Assign(target, aop, rhs))| == |target| + 2 + |AssignText(aop)| + |Show(rhs, ASSIGNMENT)|
  {
  }

  lemma AssignTextLength(aop: AssignOp)
    ensures 1 <= |AssignText(aop)| <= 3
  {
  }

  lemma AssignParts(target: string, aop: AssignOp, rhs: Expr, s: string, i: nat)
    requires Writable(Assign(target, aop, rhs)) && LooksAt(s, i, Body(Assign(target, aop, rhs)))
    ensures LooksAt(s, i, target) && At(s, i + |target|, ' ') && Spelled(s, i + |target| + 1, AssignText(aop))
    ensures |Body(Assign(target, aop, rhs))| == |target| + 2 + |AssignText(aop)| + |Show(rhs, ASSIGNMENT)|
    ensures (var k := i + |target| + 1 + |AssignText(aop)|;
             k < |s| && SkipWs(s, k) == k + 1 && LooksAt(s, k + 1, Show(rhs, ASSIGNMENT)))
  {
    hide Body, Show, LooksAt, RunEnd, IsName, AssignText, Spelled, InClass;
    var text, show := AssignText(aop), Show(rhs, ASSIGNMENT);
    AssignBody(target, aop, rhs);
    AssignTextLength(aop);
    SplitInFour(s, i, target, text, show);
    SpelledBytes(s, i + |target| + 1, text);
    SpellingBegins(rhs, ASSIGNMENT, s, i + |target| + 2 + |text|);
    OneSpace(s, i + |target| + 1 + |text|);
  }

  /** Two words and an expression, one space between them. */
  lemma SplitInFour(s: string, i: nat, a: string, b: string, c: string)
    requires LooksAt(s, i, a + (" " + (b + (" " + c))))
    ensures LooksAt(s, i, a) && At(s, i + |a|, ' ') && LooksAt(s, i + |a| + 1, b)
    ensures At(s, i + |a| + 1 + |b|, ' ') && LooksAt(s, i + |a| + 2 + |b|, c)
  {
    hide LooksAt;
    LooksAtSplit(s, i, a, " " + (b + (" " + c)));
    LooksAtSplit(s, i + |a|, " ", b + (" " + c));
    LooksAtOne(s, i + |a|, ' ');
    LooksAtSplit(s, i + |a| + 1, b, " " + c);
    LooksAtSplit(s, i + |a| + 1 + |b|, " ", c);
    LooksAtOne(s, i + |a| + 1 + |b|, ' ');
  }

  lemma UnaryParts(uop: UnOp, arg: Expr, s: string, i: nat)
    requires Writable(arg) && LooksAt(s, i, Body(Unary(uop, arg)))
    ensures At(s, i, UnaryChar(uop)) && LooksAt(s, i + 1, Show(arg, UNARY)) && !At(s, i + 1, '=')
    ensures |Body(Unary(uop, arg))| == 1 + |Show(arg, UNARY)|
  {
    assert Body(Unary(uop, arg)) == [UnaryChar(uop)] + Show(arg, UNARY);
    LooksAtSplit(s, i, [UnaryChar(uop)], Show(arg, UNARY));
    LooksAtOne(s, i, UnaryChar(uop));
    SpellingBegins(arg, UNARY, s, i + 1);
  }

  lemma ParenthesisParts(e: Expr, s: string, i: nat)
    requires LooksAt(s, i, "(" + Body(e) + ")")
    ensures LooksAt(s, i + 1, Body(e)) && At(s, i, '(') && At(s, i + 1 + |Body(e)|, ')')
  {
    assert "(" + Body(e) + ")" == "(" + (Body(e) + ")");
    LooksAtSplit(s, i, "(", Body(e) + ")");
    LooksAtOne(s, i, '(');
    LooksAtSplit(s, i + 1, Body(e), ")");
    LooksAtOne(s, i + 1 + |Body(e)|, ')');
  }

  lemma ClosedAtParenthesis(s: string, end: nat)
    requires At(s, end, ')')
    ensures Closed(ASSIGNMENT, s, end)
  {
    NoSpaceHere(s, end);
    DelimiterIsNoOperator(s, end);
  }

  lemma ClosedAtColon(s: string, end: nat)
    requires At(s, end, ' ') && At(s, end + 1, ':') && SkipWs(s, end) == end + 1
    ensures Closed(ASSIGNMENT, s, end)
  {
    DelimiterIsNoOperator(s, end + 1);
  }

  // ---------------------------------------------------------------- reading, by induction

  /** A left operand and everything up to here: the parser of the level has read `e` and is
      about to look for another operator of the level. */
  ghost predicate Chained(e: Expr, level: nat, s: string, i: nat, end: nat, n: nat)
    requires level < UNARY_LEVEL
  {
    && i <= |s| && end <= n <= |s|
    && SkipWs(s, n) == SkipWs(s, end)
    && ParseLevel(level, s, i) == ParseRest(level, e, s, n)
  }

  lemma {:induction false} ReadsInfix(iop: Infix, left: Expr, right: Expr, s: string, i: nat) returns (n: nat)
    requires Writable(Infix(iop, left, right)) && LooksAt(s, i, Body(Infix(iop, left, right)))
    requires Closed(INFIX + Level(iop) + 1, s, i + |Body(Infix(iop, left, right))|)
    ensures Chained(Infix(iop, left, right), Level(iop), s, i, i + |Body(Infix(iop, left, right))|, n)
    decreases Infix(iop, left, right), 0
  {
    hide LooksAt, RunEnd, InfixAt, AssignOpAt, Body, Show, ParseLevel, ParseRest, Level;
    var m := LeftIsRead(iop, left, right, s, i);
    OperatorFollows(iop, right, s, m);
    InfixLength(iop, left, right);
    var start := m + 2 + |InfixText(iop)|;
    SpellingBegins(right, INFIX + Level(iop) + 1, s, start);
    OneSpace(s, start - 1);
    var before := ReadsLeft(left, Level(iop), s, i);
    ReadsShow(right, INFIX + Level(iop) + 1, s, start);
    n := RestTurns(iop, left, right, s, before, m, i + |Body(Infix(iop, left, right))|);
  }

  lemma InfixLength(iop: Infix, left: Expr, right: Expr)
    ensures |Body(Infix(iop, left, right))|
         == |Show(left, INFIX + Level(iop))| + 2 + |InfixText(iop)| + |Show(right, INFIX + Level(iop) + 1)|
  {
  }

  lemma {:induction false} ReadsLeft(e: Expr, level: nat, s: string, i: nat) returns (n: nat)
    requires level < UNARY_LEVEL && Writable(e) && LooksAt(s, i, Show(e, INFIX + level))
    requires Closed(INFIX + level + 1, s, i + |Show(e, INFIX + level)|)
    ensures Chained(e, level, s, i, i + |Show(e, INFIX + level)|, n)
    decreases e, 4
  {
    hide LooksAt, RunEnd, InfixAt, AssignOpAt, Body, Show, ParseLevel, ParseRest;
    ShowIs(e, INFIX + level);
    if e.Infix? && Level(e.iop) == level {
      n := ReadsInfix(e.iop, e.left, e.right, s, i);
    } else {
      ShowIs(e, INFIX + level + 1);
      ReadsShow(e, INFIX + level + 1, s, i);
      n := ParseLevel(level + 1, s, i).value.next;
      LevelOfNext(e, level, s, i);
    }
  }

  lemma {:induction false} ReadsCond(test: Expr, yes: Expr, no: Expr, s: string, i: nat)
    requires Writable(Cond(test, yes, no)) && LooksAt(s, i, Body(Cond(test, yes, no)))
    requires Closed(TERNARY, s, i + |Body(Cond(test, yes, no))|)
    ensures i <= |s| && Reads(ParseAt(TERNARY, s, i), Cond(test, yes, no), s, i + |Body(Cond(test, yes, no))|)
    decreases Cond(test, yes, no), 0
  {
    hide LooksAt, RunEnd, InfixAt, AssignOpAt, Body, Show, ParseAt;
    var m := TestIsRead(test, yes, no, s, i);
    ArmsFollow(yes, no, s, m);
    CondLength(test, yes, no);
    var k := m + 3 + |Show(yes, ASSIGNMENT)|;
    SpellingBegins(yes, ASSIGNMENT, s, m + 3);
    SpellingBegins(no, ASSIGNMENT, s, k + 3);
    OneSpace(s, m + 2);
    OneSpace(s, k + 2);
    ClosedAtColon(s, k);
    ReadsShow(test, INFIX, s, i);
    ReadsShow(yes, ASSIGNMENT, s, m + 3);
    ReadsShow(no, ASSIGNMENT, s, k + 3);
    ReadsConditional(test, yes, no, s, i, m, k, i + |Body(Cond(test, yes, no))|);
  }

  lemma {:induction false} ReadsBody(e: Expr, s: string, i: nat)
    requires Writable(e) && LooksAt(s, i, Body(e)) && Closed(Rank(e), s, i + |Body(e)|)
    ensures i <= |s| && Reads(ParseAt(Rank(e), s, i), e, s, i + |Body(e)|)
    decreases e, 1
  {
    if e.Num? || e.Var? {
      ReadsLeaf(e, s, i);
    } else {
      hide LooksAt, RunEnd, InfixAt, AssignOpAt, Body, Show, ParseAt, Closed;
      var end := i + |Body(e)|;
      match e {
        case Unary(uop, arg) =>
          ReadsUnaryBody(uop, arg, s, i);
        case Infix(iop, left, right) =>
          CloserIsClosed(Rank(e), s, end);
          var n := ReadsInfix(iop, left, right, s, i);
          RestStops(e, Level(iop), s, i, end, n);
        case Cond(test, yes, no) =>
          ReadsCond(test, yes, no, s, i);
        case Assign(target, aop, rhs) =>
          ReadsAssignBody(target, aop, rhs, s, i);
        case _ =>
      }
    }
  }

  lemma {:induction false} ReadsUnaryBody(uop: UnOp, arg: Expr, s: string, i: nat)
    requires Writable(arg) && LooksAt(s, i, Body(Unary(uop, arg))) && Closed(UNARY, s, i + |Body(Unary(uop, arg))|)
    ensures i < |s| && Reads(ParseAt(UNARY, s, i), Unary(uop, arg), s, i + |Body(Unary(uop, arg))|)
    decreases Unary(uop, arg), 0
  {
    hide LooksAt, RunEnd, Body, Show, ParseAt, Closed;
    UnaryParts(uop, arg, s, i);
    ReadsShow(arg, UNARY, s, i + 1);
    ReadsUnary(uop, arg, s, i, i + |Body(Unary(uop, arg))|);
  }

  lemma {:induction false} ReadsAssignBody(target: string, aop: AssignOp, rhs: Expr, s: string, i: nat)
    requires Writable(Assign(target, aop, rhs)) && LooksAt(s, i, Body(Assign(target, aop, rhs)))
    requires Closed(ASSIGNMENT, s, i + |Body(Assign(target, aop, rhs))|)
    ensures i < |s| && Reads(ParseAt(ASSIGNMENT, s, i), Assign(target, aop, rhs), s, i + |Body(Assign(target, aop, rhs))|)
    decreases Assign(target, aop, rhs), 0
  {
    hide LooksAt, RunEnd, Body, Show, ParseAt, Closed, AssignText;
    AssignParts(target, aop, rhs, s, i);
    ReadsShow(rhs, ASSIGNMENT, s, i + |target| + 2 + |AssignText(aop)|);
    ReadsAssignment(target, aop, rhs, s, i, i + |Body(Assign(target, aop, rhs))|);
  }

  lemma ReadsLeaf(e: Expr, s: string, i: nat)
    requires (e.Num? || e.Var?) && Writable(e) && LooksAt(s, i, Body(e)) && Closed(PRIMARY, s, i + |Body(e)|)
    ensures i < |s| && Reads(ParseAt(PRIMARY, s, i), e, s, i + |Body(e)|)
  {
    if e.Num? {
      ReadsNumber(e.value, s, i);
    } else {
      ReadsName(e.name, s, i);
    }
  }

  lemma CloserIsClosed(rank: nat, s: string, end: nat)
    requires Closed(rank, s, end)
    ensures Closed(rank + 1, s, end)
  {
  }

  lemma CondLength(test: Expr, yes: Expr, no: Expr)
    ensures |Body(Cond(test, yes, no))|
         == |Show(test, INFIX)| + 6 + |Show(yes, ASSIGNMENT)| + |Show(no, ASSIGNMENT)|
  {
  }

  lemma RestStops(e: Expr, level: nat, s: string, i: nat, end: nat, n: nat)
    requires level < UNARY_LEVEL && Chained(e, level, s, i, end, n) && Closed(INFIX + level, s, end)
    ensures Reads(ParseAt(INFIX + level, s, i), e, s, end)
  {
    SkipTwice(s, n);
    hide RunEnd, InfixAt, ParseLevel;
  }

  /** In parentheses, at the tightest rank. */
  lemma {:induction false} ReadsParentheses(e: Expr, s: string, i: nat)
    requires Writable(e) && LooksAt(s, i, "(" + Body(e) + ")")
    ensures i + 2 + |Body(e)| <= |s| && Reads(ParseAt(PRIMARY, s, i), e, s, i + 2 + |Body(e)|)
    decreases e, 2
  {
    hide LooksAt, RunEnd, InfixAt, AssignOpAt, Body, Show, ParseAt;
    var end := i + 1 + |Body(e)|;
    ParenthesisParts(e, s, i);
    ClosedAtParenthesis(s, end);
    ShowIs(e, ASSIGNMENT);
    SpellingBegins(e, ASSIGNMENT, s, i + 1);
    if !e.Assign? {
      BeginsUnassigned(e, ASSIGNMENT, s, i + 1);
    }
    if Rank(e) == PRIMARY {
      ShowIs(e, PRIMARY);
      SpellingBegins(e, PRIMARY, s, i + 1);
    }
    ReadsBody(e, s, i + 1);
    StepsDown(e, Rank(e), ASSIGNMENT, s, i + 1, end);
    ReadsParenthesized(e, s, i, end + 1);
  }

  lemma {:induction false} ReadsShow(e: Expr, rank: nat, s: string, i: nat)
    requires rank <= PRIMARY && Writable(e) && LooksAt(s, i, Show(e, rank))
    requires Closed(rank, s, i + |Show(e, rank)|)
    ensures i < |s| && Reads(ParseAt(rank, s, i), e, s, i + |Show(e, rank)|)
    decreases e, 3
  {
    hide LooksAt, RunEnd, InfixAt, AssignOpAt, Body, Show, ParseAt;
    var end := i + |Show(e, rank)|;
    ShowIs(e, rank);
    SpellingBegins(e, rank, s, i);
    if rank == ASSIGNMENT && !e.Assign? {
      BeginsUnassigned(e, rank, s, i);
    }
    if Rank(e) < rank {
      ParenthesisParts(e, s, i);
      ParenthesisIsNoOperator(s, i);
      ReadsParentheses(e, s, i);
      StepsDown(e, PRIMARY, rank, s, i, end);
    } else {
      if Rank(e) == PRIMARY {
        ShowIs(e, PRIMARY);
        SpellingBegins(e, PRIMARY, s, i);
      }
      ReadsBody(e, s, i);
      StepsDown(e, Rank(e), rank, s, i, end);
    }
  }

  lemma ParenthesisIsNoOperator(s: string, i: nat)
    requires At(s, i, '(')
    ensures UnOpAt(s, i) == None && !InClass(Space, s[i])
  {
  }

  /** Every tree, written with the fewest parentheses, is the tree that the parser reads: this
      fixes the precedence and associativity of every operator. */
  lemma SpellingReadsBack(e: Expr)
    requires Writable(e)
    ensures ParseExpression(Show(e, ASSIGNMENT)) == Ok(e)
  {
    hide Show, LooksAt, ParseAssignment, InfixAt, AssignOpAt, RunEnd, Writable, Closed;
    var s := Show(e, ASSIGNMENT);
    WholeText(s);
    ReadsShow(e, ASSIGNMENT, s, 0);
  }

  lemma WholeText(s: string)
    ensures LooksAt(s, 0, s) && Closed(ASSIGNMENT, s, |s|) && SkipWs(s, |s|) == |s|
  {
    DelimiterIsNoOperator(s, |s|);
    assert s[0..|s|] == s;
  }

  // ---------------------------------------------------------------- what the parser can return

  lemma {:induction false} ParsedIsWritable(rank: nat, s: string, i: nat)
    requires i <= |s| && rank <= PRIMARY
    ensures ParseAt(rank, s, i).Ok? ==> Writable(ParseAt(rank, s, i).value.expr)
    decreases |s| - i, 2 * (PRIMARY - rank) + 1
  {
    if rank == ASSIGNMENT {
      AssignmentIsWritable(s, i);
    } else if rank == TERNARY {
      TernaryIsWritable(s, i);
    } else if rank < UNARY {
      var level := rank - INFIX;
      ParsedIsWritable(rank + 1, s, i);
      var p := ParseLevel(level + 1, s, i);
      if p.Ok? {
        RestIsWritable(level, p.value.expr, s, p.value.next);
      }
    } else if rank == UNARY {
      UnaryIsWritable(s, i);
    } else {
      PrimaryIsWritable(s, i);
    }
  }

  lemma {:induction false} AssignmentIsWritable(s: string, i: nat)
    requires i <= |s|
    ensures ParseAssignment(s, i).Ok? ==> Writable(ParseAssignment(s, i).value.expr)
    decreases |s| - i, 26
  {
    hide RunEnd, ParseTernary, ParseAssignment, AssignOpAt, InClass, IsName, LooksAt;
    AssignmentUnfolds(s, i);
    var j := SkipWs(s, i);
    ParsedIsWritable(TERNARY, s, j);
    if NameAt(s, j) {
      var k := RunEnd(NameChar, s, j + 1);
      var m := SkipWs(s, k);
      if AssignOpAt(s, m).Some? {
        NameIsName(s, j);
        AssignOpIsAssignable(s, m);
        ParsedIsWritable(ASSIGNMENT, s, m + AssignOpAt(s, m).value.1);
      }
    }
  }

  lemma AssignmentUnfolds(s: string, i: nat)
    requires i <= |s|
    ensures (var j := SkipWs(s, i);
             var k := if NameAt(s, j) then RunEnd(NameChar, s, j + 1) else j;
             var m := SkipWs(s, k);
             ParseAssignment(s, i)
             == if !NameAt(s, j) || AssignOpAt(s, m).None? then ParseTernary(s, j)
                else
                  (var (op, n) := AssignOpAt(s, m).value;
                   match ParseAssignment(s, m + n)
                   case Err(e) => Err(e)
                   case Ok(p) => Ok(Parsed(Assign(s[j..k], op, p.expr), p.next))))
  {
    hide RunEnd, ParseTernary, AssignOpAt, LooksAt, InClass;
  }

  lemma NameIsName(s: string, j: nat)
    requires NameAt(s, j)
    ensures IsName(s[j..RunEnd(NameChar, s, j + 1)])
  {
  }

  lemma AssignOpIsAssignable(s: string, m: nat)
    ensures AssignOpAt(s, m).Some? && AssignOpAt(s, m).value.0.Compound? ==> Assignable(AssignOpAt(s, m).value.0.op)
  {
    hide LooksAt;
  }

  lemma {:induction false} TernaryIsWritable(s: string, i: nat)
    requires i <= |s|
    ensures ParseTernary(s, i).Ok? ==> Writable(ParseTernary(s, i).value.expr)
    decreases |s| - i, 24
  {
    hide RunEnd, ParseLevel, ParseAssignment;
    ParsedIsWritable(INFIX, s, i);
    var test := ParseLevel(0, s, i);
    if test.Ok? {
      var j := SkipWs(s, test.value.next);
      if At(s, j, '?') {
        ParsedIsWritable(ASSIGNMENT, s, j + 1);
        var yes := ParseAssignment(s, j + 1);
        if yes.Ok? && At(s, SkipWs(s, yes.value.next), ':') {
          ParsedIsWritable(ASSIGNMENT, s, SkipWs(s, yes.value.next) + 1);
        }
      }
    }
  }

  lemma {:induction false} RestIsWritable(level: nat, left: Expr, s: string, i: nat)
    requires i <= |s| && level < UNARY_LEVEL && Writable(left)
    ensures ParseRest(level, left, s, i).Ok? ==> Writable(ParseRest(level, left, s, i).value.expr)
    decreases |s| - i, 0
  {
    hide RunEnd, InfixAt, ParseLevel;
    var j := SkipWs(s, i);
    InfixInBounds(level, s, j);
    if InfixAt(level, s, j).Some? {
      var (op, n) := InfixAt(level, s, j).value;
      ParsedIsWritable(INFIX + level + 1, s, j + n);
      var p := ParseLevel(level + 1, s, j + n);
      if p.Ok? {
        RestIsWritable(level, Infix(op, left, p.value.expr), s, p.value.next);
      }
    }
  }

  lemma {:induction false} UnaryIsWritable(s: string, i: nat)
    requires i <= |s|
    ensures ParseLevel(UNARY_LEVEL, s, i) == ParseUnary(s, i)
    ensures ParseUnary(s, i).Ok? ==> Writable(ParseUnary(s, i).value.expr)
    decreases |s| - i, 2
  {
    hide RunEnd, ParsePrimary;
    var j := SkipWs(s, i);
    if UnOpAt(s, j).Some? {
      UnaryIsWritable(s, j + 1);
    } else {
      PrimaryIsWritable(s, j);
    }
  }

  lemma {:induction false} PrimaryIsWritable(s: string, i: nat)
    requires i <= |s|
    ensures ParsePrimary(s, i).Ok? ==> Writable(ParsePrimary(s, i).value.expr)
    decreases |s| - i, 0
  {
    var j := SkipWs(s, i);
    if At(s, j, '(') {
      ParsedIsWritable(ASSIGNMENT, s, j + 1);
    } else if NameAt(s, j) {
      NameIsName(s, j);
    } else {
      NumberIsWritable(s, j);
    }
  }

  lemma NumberIsWritable(s: string, j: nat)
    requires j <= |s|
    ensures ParseNumber(s, j).Ok? ==> Writable(ParseNumber(s, j).value.expr)
  {
  }

  /** Whatever text was parsed, its tree can be written in normal form, and the normal form
      parses to the same tree: spaces and needless parentheses carry no meaning. */
  lemma NormalFormKeepsTheTree(s: string)
    requires ParseExpression(s).Ok?
    ensures ParseExpression(Show(ParseExpression(s).value, ASSIGNMENT)) == ParseExpression(s)
  {
    ParsedIsWritable(ASSIGNMENT, s, 0);
    SpellingReadsBack(ParseExpression(s).value);
  }
}
