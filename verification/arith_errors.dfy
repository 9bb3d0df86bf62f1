/** Texts that arithmetic expansion (src/expand/arithmetic.rs) rejects, with their errors: each is a
    spelling of any tree with something missing or something more. */
module ArithErrors {
  import opened Wrappers
  import opened Int64
  import opened Bytes
  import opened ArithSyntax
  import opened ArithSpelling
  import opened ArithWritten
  import Decimal

  // ----- Something more -----

  lemma Prefixed(a: string, b: string)
    ensures LooksAt(a + b, 0, a)
  {
    assert (a + b)[0..|a|] == a;
  }

  /** An expression is read up to a byte that does not continue it, and that is an error. */
  lemma StopsShort(e: Expr, s: string)
    requires Writable(e) && LooksAt(s, 0, Show(e, ASSIGNMENT))
    requires Closed(ASSIGNMENT, s, |Show(e, ASSIGNMENT)|) && SkipWs(s, |Show(e, ASSIGNMENT)|) < |s|
    ensures ParseExpression(s) == Err(TrailingTokens)
  {
    hide Show, LooksAt, ParseAssignment, InfixAt, AssignOpAt, RunEnd, Writable, Closed;
    ReadsShow(e, ASSIGNMENT, s, 0);
  }

  /** A parenthesis that closes nothing. */
  lemma ExtraParenthesis(e: Expr, rest: string)
    requires Writable(e)
    ensures ParseExpression(Show(e, ASSIGNMENT) + (")" + rest)) == Err(TrailingTokens)
  {
    hide Show, LooksAt, ParseExpression, RunEnd, Writable, Closed;
    var t := Show(e, ASSIGNMENT);
    var s := t + (")" + rest);
    Prefixed(t, ")" + rest);
    ClosedAtParenthesis(s, |t|);
    NoSpaceHere(s, |t|);
    StopsShort(e, s);
  }

  /** A colon without its question mark. */
  lemma ExtraColon(e: Expr, rest: string)
    requires Writable(e)
    ensures ParseExpression(Show(e, ASSIGNMENT) + (" :" + rest)) == Err(TrailingTokens)
  {
    hide Show, LooksAt, ParseExpression, Writable, Closed;
    var t := Show(e, ASSIGNMENT);
    var s := t + (" :" + rest);
    Prefixed(t, " :" + rest);
    assert s[|t|] == ' ' && s[|t| + 1] == ':';
    OneSpace(s, |t|);
    hide RunEnd;
    ClosedAtColon(s, |t|);
    StopsShort(e, s);
  }

  /** Two operands without an operator between them. */
  lemma MissingOperator(e: Expr, f: Expr)
    requires Writable(e) && Writable(f)
    ensures ParseExpression(Show(e, ASSIGNMENT) + (" " + Show(f, PRIMARY))) == Err(TrailingTokens)
  {
    hide Show, LooksAt, ParseExpression, Writable, Closed;
    var t, u := Show(e, ASSIGNMENT), Show(f, PRIMARY);
    var s := t + (" " + u);
    Prefixed(t, " " + u);
    assert LooksAt(s, |t| + 1, u) by { Suffixed(t + " ", u); assert s == t + " " + u; }
    SpellingBegins(f, PRIMARY, s, |t| + 1);
    OperandIsNoOperator(f, s, |t| + 1);
    assert s[|t|] == ' ';
    OneSpace(s, |t|);
    SpacedIsClosed(s, |t|, |t| + 1);
    StopsShort(e, s);
  }

  lemma Suffixed(a: string, b: string)
    ensures LooksAt(a + b, |a|, b)
  {
    assert (a + b)[|a|..|a| + |b|] == b;
  }

  lemma SpacedIsClosed(s: string, end: nat, j: nat)
    requires At(s, end, ' ') && SkipWs(s, end) == j && AssignOpAt(s, j) == None && !At(s, j, '?')
    requires forall level: nat :: InfixAt(level, s, j) == None
    ensures Closed(ASSIGNMENT, s, end)
  {
  }

  /** An operand begins with a letter, an underscore, a digit or a parenthesis. */
  lemma OperandIsNoOperator(f: Expr, s: string, j: nat)
    requires Writable(f) && LooksAt(s, j, Show(f, PRIMARY))
    ensures AssignOpAt(s, j) == None && !At(s, j, '?')
    ensures forall level: nat :: InfixAt(level, s, j) == None
  {
    LooksAtByte(s, j, Show(f, PRIMARY), 0);
    if f.Num? {
      Decimal.NumeralStartsWithDigit(Decimal.Ten, f.value);
    }
    assert s[j] == '(' || IsNameStart(s[j]) || IsDigit(s[j]);
    hide LooksAt, Show;
    InfixBytes(s, j);
    AssignBytes(s, j);
  }

  // ----- Something missing -----

  /** The error of what stands first is the error of the text, if that is no unary operator and
      no assignment. */
  lemma ErrorGoesUp(s: string, level: nat, e: ArithError)
    requires level <= UNARY_LEVEL && ParseLevel(level, s, 0) == Err(e)
    requires SkipWs(s, 0) == 0 && NotAssigned(s, 0)
    ensures ParseExpression(s) == Err(e)
  {
    hide ParseLevel, RunEnd, AssignOpAt;
    FromLevel(s, level, e);
    assert ParseTernary(s, 0) == Err(e);
    TernaryError(s, e);
  }

  lemma TernaryError(s: string, e: ArithError)
    requires ParseTernary(s, 0) == Err(e) && SkipWs(s, 0) == 0 && NotAssigned(s, 0)
    ensures ParseExpression(s) == Err(e)
  {
    hide ParseTernary, RunEnd, AssignOpAt;
    AssignmentUnfolds(s, 0);
  }

  lemma {:induction false} FromLevel(s: string, level: nat, e: ArithError)
    requires level <= UNARY_LEVEL && ParseLevel(level, s, 0) == Err(e)
    ensures ParseLevel(0, s, 0) == Err(e)
  {
    if level > 0 {
      FromLevel(s, level - 1, e);
    }
  }

  /** A parenthesis that is not closed. */
  lemma MissingParenthesis(e: Expr)
    requires Writable(e)
    ensures ParseExpression("(" + Show(e, ASSIGNMENT)) == Err(MissingParen)
  {
    hide Show, LooksAt, ParseAssignment, ParseLevel, ParseExpression, RunEnd, Writable, Closed, InfixAt, AssignOpAt;
    var t := Show(e, ASSIGNMENT);
    var s := "(" + t;
    Suffixed("(", t);
    assert At(s, 0, '(');
    ClosedAtEnd(s);
    ReadsShow(e, ASSIGNMENT, s, 1);
    NoSpaceHere(s, 0);
    assert ParsePrimary(s, 0) == Err(MissingParen) by { hide ParseNumber; }
    ParenthesisIsNoOperator(s, 0);
    UnaryOfPrimary(s, 0);
    ErrorGoesUp(s, UNARY_LEVEL, MissingParen);
  }

  lemma ClosedAtEnd(s: string)
    ensures Closed(ASSIGNMENT, s, |s|) && SkipWs(s, |s|) == |s|
  {
    WholeText(s);
  }

  /** A question mark without its colon. */
  lemma MissingColon(test: Expr, yes: Expr)
    requires Writable(test) && Writable(yes)
    ensures ParseExpression(Show(test, INFIX) + (" ? " + Show(yes, ASSIGNMENT))) == Err(ExpectedColon)
  {
    hide *;
    var t, u := Show(test, INFIX), Show(yes, ASSIGNMENT);
    QuestionText(t, u);
    MissingColonAt(test, yes, t + (" ? " + u), |t|);
  }

  lemma QuestionText(t: string, u: string)
    ensures var s := t + (" ? " + u);
            LooksAt(s, 0, t) && LooksAt(s, |t|, " ? ") && LooksAt(s, |t| + 3, u) && |s| == |t| + 3 + |u|
  {
    hide LooksAt;
    var s := t + (" ? " + u);
    Prefixed(t, " ? " + u);
    Suffixed(t, " ? " + u);
    LooksAtSplit(s, |t|, " ? ", u);
  }

  lemma MissingColonAt(test: Expr, yes: Expr, s: string, m: nat)
    requires Writable(test) && Writable(yes) && m == |Show(test, INFIX)|
    requires LooksAt(s, 0, Show(test, INFIX)) && LooksAt(s, m, " ? ") && LooksAt(s, m + 3, Show(yes, ASSIGNMENT))
    requires |s| == m + 3 + |Show(yes, ASSIGNMENT)|
    ensures ParseExpression(s) == Err(ExpectedColon)
  {
    hide Show, LooksAt, ParseAssignment, ParseLevel, ParseExpression, RunEnd, Writable, NotAssigned;
    TestIsReadAlone(test, s, m);
    ArmIsReadAlone(yes, s, m);
    NoColonLeft(s, m + 1, ParseLevel(0, s, 0).value, ParseAssignment(s, m + 2).value);
    TernaryError(s, ExpectedColon);
  }

  lemma TestIsReadAlone(test: Expr, s: string, m: nat)
    requires Writable(test) && m == |Show(test, INFIX)| && LooksAt(s, 0, Show(test, INFIX)) && LooksAt(s, m, " ? ")
    ensures var p := ParseLevel(0, s, 0);
            p.Ok? && p.value.next <= |s| && SkipWs(s, p.value.next) == m + 1 && At(s, m + 1, '?')
    ensures s != "" && SkipWs(s, 0) == 0 && NotAssigned(s, 0)
  {
    SpacedByte(s, m, '?');
    hide Show, LooksAt, ParseLevel, RunEnd, Writable, Closed, NotAssigned;
    ClosedBeforeQuestion(s, m);
    FirstIsRead(test, INFIX, s, m);
  }

  /** What is spelled first is read up to what does not continue it. */
  lemma {:induction false} FirstIsRead(e: Expr, rank: nat, s: string, m: nat)
    requires INFIX <= rank <= UNARY && Writable(e) && m == |Show(e, rank)| && LooksAt(s, 0, Show(e, rank))
    requires Closed(rank, s, m) && Closed(PRIMARY, s, m)
    ensures var p := ParseLevel(rank - INFIX, s, 0);
            p.Ok? && p.value.next <= |s| && SkipWs(s, p.value.next) == SkipWs(s, m)
    ensures s != "" && SkipWs(s, 0) == 0 && NotAssigned(s, 0)
  {
    assert ParseAt(rank, s, 0) == ParseLevel(rank - INFIX, s, 0);
    hide Show, LooksAt, ParseLevel, ParseAt, RunEnd, Writable, Closed, NotAssigned, InClass, UnOpAt;
    ReadsShow(e, rank, s, 0);
    BeginsUnassigned(e, rank, s, 0);
    SpellingBegins(e, rank, s, 0);
    NoSpaceHere(s, 0);
  }

  lemma ArmIsReadAlone(yes: Expr, s: string, m: nat)
    requires Writable(yes) && LooksAt(s, m, " ? ") && LooksAt(s, m + 3, Show(yes, ASSIGNMENT))
    requires |s| == m + 3 + |Show(yes, ASSIGNMENT)|
    ensures var p := ParseAssignment(s, m + 2);
            p.Ok? && p.value.next <= |s| && SkipWs(s, p.value.next) == |s|
  {
    SpacedByte(s, m, '?');
    hide Show, LooksAt, ParseAssignment, RunEnd, Writable, Closed, InClass;
    ClosedAtEnd(s);
    ReadsShow(yes, ASSIGNMENT, s, m + 3);
    SpellingBegins(yes, ASSIGNMENT, s, m + 3);
    OneSpace(s, m + 2);
    LeadingSpaceIsSkipped(ASSIGNMENT, s, m + 2);
  }

  lemma NoColonLeft(s: string, j: nat, test: Parsed, yes: Parsed)
    requires ParseLevel(0, s, 0) == Ok(test) && test.next <= |s| && SkipWs(s, test.next) == j && At(s, j, '?')
    requires ParseAssignment(s, j + 1) == Ok(yes) && yes.next <= |s| && SkipWs(s, yes.next) == |s|
    ensures ParseTernary(s, 0) == Err(ExpectedColon)
  {
    hide RunEnd, ParseLevel, ParseAssignment;
  }

  lemma ClosedBeforeQuestion(s: string, m: nat)
    requires At(s, m, ' ') && At(s, m + 1, '?') && SkipWs(s, m) == m + 1
    ensures Closed(INFIX, s, m) && Closed(PRIMARY, s, m)
  {
    DelimiterIsNoOperator(s, m + 1);
  }

  /** No operand at the end of the text, at any rank. */
  lemma {:induction false} NothingLeft(s: string, i: nat, level: nat)
    requires i <= |s| && SkipWs(s, i) == |s| && level <= UNARY_LEVEL
    ensures ParseLevel(level, s, i) == Err(ExpectedOperand)
    decreases UNARY_LEVEL - level
  {
    hide RunEnd;
    if level == UNARY_LEVEL {
      RunEndsAt(Digit, s, |s|, |s|);
      RunEndsAt(Space, s, |s|, |s|);
      assert ParseNumber(s, |s|) == Err(ExpectedOperand);
      assert ParsePrimary(s, |s|) == Err(ExpectedOperand);
      assert ParseUnary(s, i) == Err(ExpectedOperand);
    } else {
      NothingLeft(s, i, level + 1);
    }
  }

  /** Nothing but white space. */
  lemma NothingIsAnError(a: string)
    requires Blank(a)
    ensures ParseExpression(a) == Err(ExpectedOperand)
  {
    RunEndsAt(Space, a, 0, |a|);
    RunEndsAt(Space, a, |a|, |a|);
    hide RunEnd, ParseLevel;
    NothingLeft(a, |a|, 0);
    assert ParseTernary(a, |a|) == Err(ExpectedOperand);
    AssignmentUnfolds(a, 0);
  }

  /** An operator without its second operand. */
  lemma MissingOperand(iop: Infix, left: Expr)
    requires Writable(left)
    ensures ParseExpression(Show(left, INFIX + Level(iop) + 1) + (" " + InfixText(iop) + " ")) == Err(ExpectedOperand)
  {
    hide Show, ParseExpression, InfixText, Level, LooksAt, Writable, Spelled;
    var t, text := Show(left, INFIX + Level(iop) + 1), InfixText(iop);
    TextIsShort(iop);
    OperatorText(t, text);
    MissingOperandAt(iop, left, t + (" " + text + " "), |t|);
  }

  lemma OperatorText(t: string, text: string)
    requires 1 <= |text| <= 3
    ensures var s := t + (" " + text + " ");
            LooksAt(s, 0, t) && At(s, |t|, ' ') && Spelled(s, |t| + 1, text) && |s| == |t| + 2 + |text|
  {
    hide LooksAt, Spelled;
    var s := t + (" " + text + " ");
    Prefixed(t, " " + text + " ");
    assert " " + text + " " == " " + (text + " ");
    Suffixed(t, " " + (text + " "));
    LooksAtSplit(s, |t|, " ", text + " ");
    LooksAtSplit(s, |t| + 1, text, " ");
    LooksAtByte(s, |t|, " ", 0);
    LooksAtByte(s, |t| + 1 + |text|, " ", 0);
    SpelledBytes(s, |t| + 1, text);
  }

  lemma MissingOperandAt(iop: Infix, left: Expr, s: string, m: nat)
    requires Writable(left) && m == |Show(left, INFIX + Level(iop) + 1)| && LooksAt(s, 0, Show(left, INFIX + Level(iop) + 1))
    requires At(s, m, ' ') && Spelled(s, m + 1, InfixText(iop)) && |s| == m + 2 + |InfixText(iop)|
    ensures ParseExpression(s) == Err(ExpectedOperand)
  {
    var after := m + 1 + |InfixText(iop)|;
    SpaceAtEnd(s, after);
    hide Show, LooksAt, ParseLevel, ParseExpression, RunEnd, Writable, InfixAt, InfixText, NotAssigned, Spelled, Level;
    OperatorIsRead(iop, s, m + 1);
    FirstStops(iop, left, s, m);
    SecondIsMissing(iop, s, m + 1, after);
  }

  /** From the operator on, with nothing behind it. */
  lemma SecondIsMissing(iop: Infix, s: string, j: nat, after: nat)
    requires InfixAt(Level(iop), s, j) == Some((iop, |InfixText(iop)|)) && after == j + |InfixText(iop)| <= |s|
    requires ParseLevel(Level(iop) + 1, s, 0).Ok? && SkipWs(s, ParseLevel(Level(iop) + 1, s, 0).value.next) == j
    requires SkipWs(s, after) == |s| && SkipWs(s, 0) == 0 && NotAssigned(s, 0)
    ensures ParseExpression(s) == Err(ExpectedOperand)
  {
    hide ParseLevel, ParseExpression, RunEnd, InfixAt, InfixText, NotAssigned, Level;
    NothingLeft(s, after, Level(iop) + 1);
    var p := ParseLevel(Level(iop) + 1, s, 0).value;
    RestFails(iop, p.expr, s, p.next, j);
    LevelOfNext(p.expr, Level(iop), s, 0);
    ErrorGoesUp(s, Level(iop), ExpectedOperand);
  }

  lemma FirstStops(iop: Infix, left: Expr, s: string, m: nat)
    requires Writable(left) && m == |Show(left, INFIX + Level(iop) + 1)| && LooksAt(s, 0, Show(left, INFIX + Level(iop) + 1))
    requires At(s, m, ' ') && Spelled(s, m + 1, InfixText(iop)) && m + 1 < |s| && !InClass(Space, s[m + 1])
    ensures var p := ParseLevel(Level(iop) + 1, s, 0);
            p.Ok? && p.value.next <= |s| && SkipWs(s, p.value.next) == m + 1
    ensures s != "" && SkipWs(s, 0) == 0 && NotAssigned(s, 0)
  {
    hide Show, LooksAt, ParseLevel, RunEnd, Writable, Closed, InfixText, NotAssigned, InClass, Spelled, Level;
    OneSpace(s, m);
    ClosedBeforeOperator(iop, s, m);
    FirstIsRead(left, INFIX + Level(iop) + 1, s, m);
  }

  lemma TextIsShort(iop: Infix)
    ensures 1 <= |InfixText(iop)| <= 3
  {
  }

  lemma SpaceAtEnd(s: string, i: nat)
    requires i + 1 == |s| && s[i] == ' '
    ensures SkipWs(s, i) == |s|
  {
  }

  lemma ClosedBeforeOperator(iop: Infix, s: string, m: nat)
    requires Spelled(s, m + 1, InfixText(iop)) && At(s, m, ' ') && SkipWs(s, m) == m + 1
    ensures Closed(INFIX + Level(iop) + 1, s, m) && Closed(PRIMARY, s, m)
  {
    hide RunEnd, InfixText, InfixAt, AssignOpAt;
    OperatorIsRead(iop, s, m + 1);
  }

  lemma RestFails(iop: Infix, left: Expr, s: string, i: nat, j: nat)
    requires i <= |s| && SkipWs(s, i) == j && InfixAt(Level(iop), s, j) == Some((iop, |InfixText(iop)|))
    requires j + |InfixText(iop)| <= |s| && ParseLevel(Level(iop) + 1, s, j + |InfixText(iop)|) == Err(ExpectedOperand)
    ensures ParseRest(Level(iop), left, s, i) == Err(ExpectedOperand)
  {
    hide RunEnd, InfixAt, ParseLevel, Level, InfixText;
  }
}
