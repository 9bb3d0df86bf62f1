/** The one-pass arithmetic evaluator (src/expand/arithmetic.rs): a cursor over the text, a
    variable table it writes as it goes, and a counter of enclosing unselected operands.
    Every parse method is proved to return what the pure parser of `ArithSyntax` followed
    by a meaning of `ArithSemantics` gives, on success and on failure alike. */
module ArithEvaluator {
  import opened Wrappers
  import opened Int64
  import opened Bytes
  import opened ArithSyntax
  import opened ArithSemantics
  import Decimal

  /** Meaning of a tree inside `skip` unselected operands. */
  function Run(e: Expr, skip: nat, cfg: Config, vars: Vars): Outcome {
    if skip > 0 then Outcome(Dry(e, cfg, vars), vars) else Eager(e, cfg, vars)
  }

  /** A parse method did what the pure parse `p` calls for: it returned the meaning of the
      tree, left the variables of that meaning and, on success, the cursor at the end of the
      tree; if there is no tree it failed, and left the variables that `prefix`, the tree of
      what was read before the error, leaves. Inside an unselected operand it wrote no
      variable, whatever happened. */
  ghost predicate Implements(p: ParseResult, prefix: Expr, skip: nat, cfg: Config, before: Vars,
                             r: Value, index: nat, after: Vars)
  {
    && (skip > 0 ==> after == before)
    && match p
       case Err(_) => r.Err? && after == Run(prefix, skip, cfg, before).vars
       case Ok(q) => Outcome(r, after) == Run(q.expr, skip, cfg, before) && (r.Ok? ==> index == q.next)
  }

  lemma LeftErrorWins(op: Infix, left: Expr, right: Expr, skip: nat, cfg: Config, vars: Vars)
    requires Run(left, skip, cfg, vars).value.Err?
    ensures Run(Infix(op, left, right), skip, cfg, vars) == Run(left, skip, cfg, vars)
  {
    hide ApplyBinary;
  }

  /** An error in the left part of an operator chain is the error of the whole chain. */
  lemma {:induction false} ErrorOnTheLeft(level: nat, left: Expr, s: string, i: nat, skip: nat, cfg: Config, vars: Vars)
    requires i <= |s| && level < UNARY_LEVEL
    requires Run(left, skip, cfg, vars).value.Err?
    ensures match ParseRest(level, left, s, i)
            case Ok(p) => Run(p.expr, skip, cfg, vars) == Run(left, skip, cfg, vars)
            case Err(_) => Run(PrefixRest(level, left, s, i), skip, cfg, vars) == Run(left, skip, cfg, vars)
    decreases |s| - i
  {
    hide Run, ParseLevel, PrefixLevel;
    var j := SkipWs(s, i);
    InfixInBounds(level, s, j);
    match InfixAt(level, s, j)
    case None =>
    case Some((op, n)) =>
      hide InfixAt;
      var p := ParseLevel(level + 1, s, j + n);
      var joined := Infix(op, left, if p.Ok? then p.value.expr else PrefixLevel(level + 1, s, j + n));
      LeftErrorWins(op, left, joined.right, skip, cfg, vars);
      if p.Ok? {
        ErrorOnTheLeft(level, joined, s, p.value.next, skip, cfg, vars);
      }
  }

  /** `Implements` for the operators of one level. */
  ghost predicate Did(level: nat, s: string, start: nat, skip: nat, cfg: Config, before: Vars,
                      r: Value, index: nat, after: Vars)
    requires start <= |s| && level <= UNARY_LEVEL
  {
    Implements(ParseLevel(level, s, start), PrefixLevel(level, s, start), skip, cfg, before, r, index, after)
  }

  /** An operator loop that began at `start` has read `left`, whose value is `value`, and has
      the rest of the chain still to read from `i`. */
  ghost predicate Midway(level: nat, left: Expr, s: string, start: nat, i: nat, skip: nat, cfg: Config,
                         before: Vars, value: i64, now: Vars)
    requires start <= i <= |s| && level < UNARY_LEVEL
  {
    && ParseLevel(level, s, start) == ParseRest(level, left, s, i)
    && (ParseRest(level, left, s, i).Err? ==> PrefixLevel(level, s, start) == PrefixRest(level, left, s, i))
    && Run(left, skip, cfg, before) == Outcome(Ok(value), now)
  }

  /** The first operand of a chain: its error is the chain's, its value starts the loop. */
  lemma LoopStart(level: nat, s: string, start: nat, skip: nat, cfg: Config, before: Vars,
                  r: Value, index: nat, after: Vars) returns (left: Expr)
    requires start <= |s| && level < UNARY_LEVEL
    requires Did(level + 1, s, start, skip, cfg, before, r, index, after)
    ensures r.Err? ==> Did(level, s, start, skip, cfg, before, r, index, after)
    ensures r.Ok? ==> start < index <= |s| && Midway(level, left, s, start, index, skip, cfg, before, r.value, after)
  {
    left := Num(0);
    var first := ParseLevel(level + 1, s, start);
    if r.Err? {
      if first.Ok? {
        ErrorOnTheLeft(level, first.value.expr, s, first.value.next, skip, cfg, before);
      }
    } else {
      left := first.value.expr;
    }
  }

  /** The chain ends where no operator of the level follows. */
  lemma LoopExit(level: nat, left: Expr, s: string, start: nat, i: nat, skip: nat, cfg: Config,
                 before: Vars, value: i64, now: Vars)
    requires start <= i <= |s| && level < UNARY_LEVEL
    requires Midway(level, left, s, start, i, skip, cfg, before, value, now)
    requires InfixAt(level, s, SkipWs(s, i)).None?
    ensures Did(level, s, start, skip, cfg, before, Ok(value), SkipWs(s, i), now)
  {
    hide InfixAt, Eager, Dry, ParseLevel;
  }

  /** The nesting of the right operand: one deeper when the left operand decides. */
  function RightSkip(op: Infix, left: i64, skip: nat): nat {
    if Decided(op, left) then skip + 1 else skip
  }

  /** The meaning of an infix tree from the meanings of its operands. */
  lemma RunInfix(op: Infix, left: Expr, right: Expr, skip: nat, cfg: Config, before: Vars,
                 value: i64, mid: Vars, r: Value, after: Vars)
    requires Run(left, skip, cfg, before) == Outcome(Ok(value), mid)
    requires Run(right, RightSkip(op, value, skip), cfg, mid) == Outcome(r, after)
    ensures Run(Infix(op, left, right), skip, cfg, before)
         == Outcome(if r.Err? then r else Joined(op, value, r.value), after)
  {
    hide ApplyBinary;
  }

  /** One step of the assignment parser, once the tokens at its front are known. */
  lemma AssignmentParse(s: string, i: nat)
    requires i <= |s|
    ensures ParseAssignment(s, i)
         == (var j := SkipWs(s, i);
             var k := if NameAt(s, j) then RunEnd(NameChar, s, j + 1) else j;
             var op := AssignOpAt(s, SkipWs(s, k));
             if !NameAt(s, j) || op.None? then ParseTernary(s, j)
             else (match ParseAssignment(s, SkipWs(s, k) + op.value.1)
                   case Err(e) => Err(e)
                   case Ok(p) => Ok(Parsed(Assign(s[j..k], op.value.0, p.expr), p.next))))
  {
    hide AssignOpAt, ParseTernary, InClass;
  }

  lemma AssignmentPrefix(s: string, i: nat)
    requires i <= |s|
    ensures PrefixAssignment(s, i)
         == (var j := SkipWs(s, i);
             var k := if NameAt(s, j) then RunEnd(NameChar, s, j + 1) else j;
             var op := AssignOpAt(s, SkipWs(s, k));
             if !NameAt(s, j) || op.None? then PrefixTernary(s, j)
             else PrefixAssignment(s, SkipWs(s, k) + op.value.1))
  {
    hide AssignOpAt, PrefixTernary, InClass;
  }

  /** The meaning of an assignment from that of its right-hand side. */
  lemma RunAssign(target: string, aop: AssignOp, rhs: Expr, skip: nat, cfg: Config, before: Vars)
    ensures Run(Assign(target, aop, rhs), skip, cfg, before)
         == (var r := Run(rhs, skip, cfg, before);
             if skip > 0 || r.value.Err? then r
             else (var v := Combined(aop, target, r.value.value, cfg, r.vars);
                   if v.Err? then Outcome(v, r.vars) else Store(target, v.value, cfg, r.vars)))
  {
    hide Combined, Store;
  }

  /** The meaning of a conditional: the unselected branch is scanned one level deeper. */
  lemma RunCond(test: Expr, yes: Expr, no: Expr, skip: nat, cfg: Config, before: Vars)
    ensures Run(Cond(test, yes, no), skip, cfg, before)
         == (var t := Run(test, skip, cfg, before);
             if t.value.Err? then t
             else (var chosen := t.value.value != 0;
                   var y := Run(yes, if chosen then skip else skip + 1, cfg, t.vars);
                   var n := Run(no, if chosen then skip + 1 else skip, cfg, y.vars);
                   if y.value.Err? then y
                   else if n.value.Err? then n
                   else Outcome(if chosen then y.value else n.value, n.vars)))
  {
  }

  lemma ZeroWritesNothing(cfg: Config)
    ensures forall skip: nat, vars :: Run(Num(0), skip, cfg, vars) == Outcome(Ok(0), vars)
  {
  }

  /** A conditional of which only the test has been read: it fails, or no question mark follows. */
  lemma TestOnly(s: string, i: nat, skip: nat, cfg: Config, before: Vars, r: Value, index: nat, after: Vars)
    requires i <= |s| && Did(0, s, i, skip, cfg, before, r, index, after)
    ensures r.Err? ==> Implements(ParseTernary(s, i), PrefixTernary(s, i), skip, cfg, before, r, index, after)
    ensures r.Ok? && !At(s, SkipWs(s, index), '?') ==>
              Implements(ParseTernary(s, i), PrefixTernary(s, i), skip, cfg, before, r, SkipWs(s, index), after)
  {
    hide ParseLevel, PrefixLevel, ParseAssignment, PrefixAssignment, Eager, Dry, RunEnd;
    var read := if ParseTernary(s, i).Ok? then ParseTernary(s, i).value.expr else PrefixTernary(s, i);
    if read.Cond? {
      RunCond(read.test, read.yes, read.no, skip, cfg, before);
    }
  }

  /** The test came to `cv` and the branch after the question mark to `r`. */
  lemma YesRan(s: string, i: nat, skip: nat, cfg: Config, before: Vars, cv: i64, mid: Vars, r: Value, index: nat, after: Vars)
    requires i <= |s| && TestIs(s, i, skip, cfg, before, cv, mid)
    requires var j := SkipWs(s, ParseLevel(0, s, i).value.next) + 1;
             Implements(ParseAssignment(s, j), PrefixAssignment(s, j), if cv == 0 then skip + 1 else skip, cfg, mid, r, index, after)
    ensures r.Err? ==> Implements(ParseTernary(s, i), PrefixTernary(s, i), skip, cfg, before, r, index, after)
    ensures r.Ok? && !At(s, SkipWs(s, index), ':') ==>
              Implements(ParseTernary(s, i), PrefixTernary(s, i), skip, cfg, before, Err(ExpectedColon), SkipWs(s, index), after)
  {
    hide ParseLevel, PrefixLevel, ParseAssignment, PrefixAssignment, Eager, Dry, RunEnd;
    var read := if ParseTernary(s, i).Ok? then ParseTernary(s, i).value.expr else PrefixTernary(s, i);
    RunCond(read.test, read.yes, read.no, skip, cfg, before);
    ZeroWritesNothing(cfg);
  }

  /** The test of the conditional at `i` is followed by a question mark and comes to `cv`. */
  predicate TestIs(s: string, i: nat, skip: nat, cfg: Config, before: Vars, cv: i64, mid: Vars)
    requires i <= |s|
  {
    && ParseLevel(0, s, i).Ok?
    && At(s, SkipWs(s, ParseLevel(0, s, i).value.next), '?')
    && Run(ParseLevel(0, s, i).value.expr, skip, cfg, before) == Outcome(Ok(cv), mid)
  }

  /** Both branches have run. */
  lemma NoRan(s: string, i: nat, skip: nat, cfg: Config, before: Vars, cv: i64, mid: Vars, yes: i64, one: Vars,
              r: Value, index: nat, after: Vars)
    requires i <= |s| && TestIs(s, i, skip, cfg, before, cv, mid)
    requires (skip > 0 ==> mid == before && one == mid && after == one)
    requires var p := ParseAssignment(s, SkipWs(s, ParseLevel(0, s, i).value.next) + 1);
             && p.Ok? && At(s, SkipWs(s, p.value.next), ':')
             && Run(p.value.expr, if cv == 0 then skip + 1 else skip, cfg, mid) == Outcome(Ok(yes), one)
             && var k := SkipWs(s, p.value.next) + 1;
                Implements(ParseAssignment(s, k), PrefixAssignment(s, k), if cv == 0 then skip else skip + 1, cfg, one, r, index, after)
    ensures Implements(ParseTernary(s, i), PrefixTernary(s, i), skip, cfg, before,
                       if r.Ok? && cv != 0 then Ok(yes) else r, index, after)
  {
    hide ParseLevel, PrefixLevel, ParseAssignment, PrefixAssignment, Eager, Dry, RunEnd;
    var read := if ParseTernary(s, i).Ok? then ParseTernary(s, i).value.expr else PrefixTernary(s, i);
    RunCond(read.test, read.yes, read.no, skip, cfg, before);
  }

  lemma LooksAtInBounds(s: string, i: nat, word: string)
    requires LooksAt(s, i, word)
    ensures i + |word| <= |s|
  {
  }

  lemma SkipsOnce(s: string, i: nat)
    requires i <= |s|
    ensures SkipWs(s, SkipWs(s, i)) == SkipWs(s, i)
  {
  }

  /** A primary expression, after the white space in front of it. */
  lemma PrimaryParse(s: string, i: nat)
    requires i <= |s|
    ensures (var j := SkipWs(s, i);
             ParsePrimary(s, i)
             == if At(s, j, '(') then
                  match ParseAssignment(s, j + 1)
                  case Err(e) => Err(e)
                  case Ok(p) =>
                    (var k := SkipWs(s, p.next);
                     if At(s, k, ')') then Ok(Parsed(p.expr, k + 1)) else Err(MissingParen))
                else if NameAt(s, j) then
                  Ok(Parsed(Var(s[j..RunEnd(NameChar, s, j + 1)]), RunEnd(NameChar, s, j + 1)))
                else ParseNumber(s, j))
    ensures (var j := SkipWs(s, i);
             PrefixPrimary(s, i)
             == if !At(s, j, '(') then Num(0)
                else match ParseAssignment(s, j + 1)
                     case Err(_) => PrefixAssignment(s, j + 1)
                     case Ok(p) => p.expr)
  {
    hide RunEnd, ParseAssignment, ParseNumber;
  }

  lemma RunVar(name: string, skip: nat, cfg: Config, vars: Vars)
    ensures Run(Var(name), skip, cfg, vars) == Outcome(Resolve(name, cfg, vars), vars)
  {
  }

  lemma UnaryLevelParse(s: string, i: nat)
    requires i <= |s|
    ensures ParseLevel(UNARY_LEVEL, s, i) == ParseUnary(s, i)
    ensures PrefixLevel(UNARY_LEVEL, s, i) == PrefixUnary(s, i)
  {
  }

  /** One turn of an operator loop: `r`, `index` and `after` come from the right operand of
      `op`, the `n`-byte operator found at the first byte after `i` that is not white space. */
  lemma LoopTurn(level: nat, left: Expr, s: string, start: nat, i: nat, skip: nat, cfg: Config, before: Vars,
                 value: i64, mid: Vars, op: Infix, n: nat, r: Value, index: nat, after: Vars)
    returns (joined: Expr)
    requires start < i <= |s| && level < UNARY_LEVEL
    requires Midway(level, left, s, start, i, skip, cfg, before, value, mid)
    requires InfixAt(level, s, SkipWs(s, i)) == Some((op, n)) && SkipWs(s, i) + n <= |s|
    requires Did(level + 1, s, SkipWs(s, i) + n, RightSkip(op, value, skip), cfg, mid, r, index, after)
    ensures r.Err? ==> Did(level, s, start, skip, cfg, before, r, index, after)
    ensures r.Ok? ==> i < index <= |s|
    ensures r.Ok? ==>
              var v := Joined(op, value, r.value);
              if v.Ok? then Midway(level, joined, s, start, index, skip, cfg, before, v.value, after)
              else Did(level, s, start, skip, cfg, before, v, index, after)
  {
    hide Eager, Dry, Joined, ParseLevel;
    InfixInBounds(level, s, SkipWs(s, i));
    var right := ParseLevel(level + 1, s, SkipWs(s, i) + n);
    joined := left;
    if right.Err? {
      var prefix := PrefixLevel(level + 1, s, SkipWs(s, i) + n);
      var partial := Run(prefix, RightSkip(op, value, skip), cfg, mid);
      RunInfix(op, left, prefix, skip, cfg, before, value, mid, partial.value, partial.vars);
    }
    if right.Ok? {
      hide InfixAt;
      joined := Infix(op, left, right.value.expr);
      RunInfix(op, left, right.value.expr, skip, cfg, before, value, mid, r, after);
      if Run(joined, skip, cfg, before).value.Err? {
        ErrorOnTheLeft(level, joined, s, right.value.next, skip, cfg, before);
      }
    }
  }

  /** The expansion context: the variables, which assignments write, and what they cannot change. */
  class Context {
    var vars: Vars
    const cfg: Config

    constructor (vars: Vars, cfg: Config)
      ensures this.vars == vars && this.cfg == cfg
    {
      this.vars := vars;
      this.cfg := cfg;
    }

    method SetVar(name: string, text: string) returns (r: Result<(), ArithError>)
      modifies this`vars
      ensures r == if name in cfg.readonly then Err(ReadonlyVariable) else Ok(())
      ensures vars == if name in cfg.readonly then old(vars) else old(vars)[name := text]
    {
      if name in cfg.readonly {
        return Err(ReadonlyVariable);
      }
      vars := vars[name := text];
      return Ok(());
    }
  }

  class ArithmeticParser {
    const source: string
    const ctx: Context
    var index: nat
    var skipDepth: nat

    constructor (ctx: Context, raw: string)
      ensures Valid() && source == raw && this.ctx == ctx && index == 0 && skipDepth == 0
    {
      source := raw;
      this.ctx := ctx;
      index := 0;
      skipDepth := 0;
    }

    ghost predicate Valid()
      reads this
    {
      index <= |source|
    }

    // ----- Cursor -----

    predicate Sees(c: char)
      reads this
    {
      At(source, index, c)
    }

    predicate SeesAt(offset: nat, c: char)
      reads this
    {
      At(source, index + offset, c)
    }

    method SkipSpace()
      requires Valid()
      modifies this`index
      ensures Valid()
      ensures index == SkipWs(source, old(index))
    {
      ScanRun(Space);
    }

    method ScanRun(cls: ByteClass)
      requires Valid()
      modifies this`index
      ensures Valid()
      ensures index == RunEnd(cls, source, old(index))
    {
      while index < |source| && InClass(cls, source[index])
        invariant index <= |source|
        invariant RunEnd(cls, source, old(index)) == RunEnd(cls, source, index)
      {
        index := index + 1;
      }
    }

    method Consume(c: char) returns (b: bool)
      requires Valid()
      modifies this`index
      ensures Valid()
      ensures b == At(source, old(index), c)
      ensures index == old(index) + if b then 1 else 0
    {
      b := Sees(c);
      if b {
        index := index + 1;
      }
    }

    method ConsumeBytes(word: string) returns (b: bool)
      requires Valid()
      modifies this`index
      ensures Valid()
      ensures b == LooksAt(source, old(index), word)
      ensures index == old(index) + if b then |word| else 0
    {
      b := LooksAt(source, index, word);
      if b {
        index := index + |word|;
      }
    }

    method TryScanName() returns (name: Option<string>)
      requires Valid()
      modifies this`index
      ensures Valid()
      ensures var j := SkipWs(source, old(index));
              if NameAt(source, j)
              then index == RunEnd(NameChar, source, j + 1) && name == Some(source[j..index])
              else index == j && name == None
    {
      SkipSpace();
      var start := index;
      if index < |source| && IsNameStart(source[index]) {
        index := index + 1;
        ScanRun(NameChar);
        return Some(source[start..index]);
      }
      return None;
    }

    method TryConsumeAssignOp() returns (op: Option<AssignOp>)
      requires Valid()
      modifies this`index
      ensures Valid()
      ensures match AssignOpAt(source, old(index))
              case None => op == None && index == old(index)
              case Some(p) => op == Some(p.0) && index == old(index) + p.1
    {
      hide LooksAt;
      var table := [
        ("<<=", Compound(Shl)), (">>=", Compound(Shr)), ("&=", Compound(BAnd)), ("^=", Compound(BXor)),
        ("|=", Compound(BOr)), ("*=", Compound(Mul)), ("/=", Compound(Div)), ("%=", Compound(Rem)),
        ("+=", Compound(Add)), ("-=", Compound(Sub)), ("=", Plain)];
      assert table[0].0 == "<<=" && table[1].0 == ">>=" && table[2].0 == "&=" && table[3].0 == "^=";
      assert table[4].0 == "|=" && table[5].0 == "*=" && table[6].0 == "/=" && table[7].0 == "%=";
      assert table[8].0 == "+=" && table[9].0 == "-=" && table[10].0 == "=";
      for k := 0 to |table|
        invariant index == old(index) <= |source|
        invariant forall m :: 0 <= m < k ==> !LooksAt(source, index, table[m].0)
      {
        if LooksAt(source, index, table[k].0) {
          if k == 10 && LooksAt(source, index, "==") {
            return None;
          }
          LooksAtInBounds(source, index, table[k].0);
          index := index + |table[k].0|;
          return Some(table[k].1);
        }
      }
      return None;
    }

    /** The operator of one of the levels from `|` to `%`, if it stands at the cursor. */
    method TryConsumeInfix(level: nat) returns (op: Option<BinOp>)
      requires Valid() && 2 <= level < UNARY_LEVEL
      modifies this`index
      ensures Valid()
      ensures match InfixAt(level, source, old(index))
              case None => op == None && index == old(index)
              case Some(p) => p.0.Op? && op == Some(p.0.op) && index == old(index) + p.1
    {
      var le, ge, eq, ne := false, false, false, false;
      if level == 5 {
        eq := ConsumeBytes("==");
        if !eq {
          ne := ConsumeBytes("!=");
        }
      } else if level == 6 {
        le := ConsumeBytes("<=");
        if !le {
          ge := ConsumeBytes(">=");
        }
      }
      if eq || ne || le || ge {
        return Some(if eq then Eq else if ne then Ne else if le then Le else Ge);
      }
      match level {
        case 2 =>
          if Sees('|') && !SeesAt(1, '|') && !SeesAt(1, '=') { op := Some(BOr); } else { op := None; }
        case 3 =>
          if Sees('^') && !SeesAt(1, '=') { op := Some(BXor); } else { op := None; }
        case 4 =>
          if Sees('&') && !SeesAt(1, '&') && !SeesAt(1, '=') { op := Some(BAnd); } else { op := None; }
        case 6 =>
          if Sees('<') && !SeesAt(1, '<') { op := Some(Lt); }
          else if Sees('>') && !SeesAt(1, '>') { op := Some(Gt); }
          else { op := None; }
        case 7 =>
          if Sees('<') && SeesAt(1, '<') && !SeesAt(2, '=') { op := Some(Shl); }
          else if Sees('>') && SeesAt(1, '>') && !SeesAt(2, '=') { op := Some(Shr); }
          else { op := None; }
        case 8 =>
          if Sees('+') && !SeesAt(1, '=') { op := Some(Add); }
          else if Sees('-') && !SeesAt(1, '=') { op := Some(Sub); }
          else { op := None; }
        case 9 =>
          if Sees('*') && !SeesAt(1, '=') { op := Some(Mul); }
          else if Sees('/') && !SeesAt(1, '=') { op := Some(Div); }
          else if Sees('%') && !SeesAt(1, '=') { op := Some(Rem); }
          else { op := None; }
        case _ =>
          op := None;
      }
      if op.Some? {
        index := index + if level == 7 then 2 else 1;
      }
    }

    // ----- Variables -----

    method ResolveVar(name: string) returns (r: Value)
      ensures r == Resolve(name, ctx.cfg, ctx.vars)
    {
      if name !in ctx.vars {
        return if ctx.cfg.nounset then Err(ParameterNotSet) else Ok(0);
      }
      var text := ctx.vars[name];
      if |text| == 0 {
        return Ok(0);
      }
      var trimmed := Trim(text);
      var parsed;
      if LooksAt(trimmed, 0, "0x") || LooksAt(trimmed, 0, "0X") {
        parsed := Decimal.ParseHexI64(trimmed[2..]);
      } else if LooksAt(trimmed, 0, "0") && |trimmed| > 1
                && (forall k :: 1 <= k < |trimmed| ==> IsDigit(trimmed[k])) {
        parsed := Decimal.ParseOctalI64(trimmed[1..]);
      } else {
        parsed := Decimal.ParseI64(trimmed);
      }
      return match parsed case Some(v) => Ok(v) case None => Err(InvalidVariableValue);
    }

    // ----- Grammar, loosest-binding first -----

    method ParseAssignmentExpr() returns (r: Value)
      requires Valid()
      modifies this`index, this`skipDepth, ctx`vars
      ensures Valid()
      ensures r.Ok? ==> skipDepth == old(skipDepth)
      ensures Implements(ParseAssignment(source, old(index)), PrefixAssignment(source, old(index)), old(skipDepth), ctx.cfg, old(ctx.vars), r, index, ctx.vars)
      decreases |source| - index, 14
    {
      hide ParseAssignment, ParseTernary, PrefixAssignment, PrefixTernary, AssignOpAt, Eager, Dry, RunEnd, Resolve, ApplyBinary;
      ghost var before := ctx.vars;
      AssignmentParse(source, index);
      AssignmentPrefix(source, index);
      SkipSpace();
      var save := index;
      assert SkipWs(source, save) == save;
      var name := TryScanName();
      if name.Some? {
        SkipSpace();
        var op := TryConsumeAssignOp();
        if op.Some? {
          ghost var p := ParseAssignment(source, index);
          if p.Ok? {
            RunAssign(name.value, op.value, p.value.expr, skipDepth, ctx.cfg, before);
          }
          var rhs := ParseAssignmentExpr();
          if rhs.Err? || skipDepth > 0 {
            return rhs;
          }
          var value: i64 := rhs.value;
          if op.value.Compound? {
            var lhs := ResolveVar(name.value);
            if lhs.Err? {
              return lhs;
            }
            var combined := ApplyBinary(op.value.op, lhs.value, rhs.value);
            if combined.Err? {
              return combined;
            }
            value := combined.value;
          }
          var buf := new Decimal.I64Buf.New(value);
          var stored := ctx.SetVar(name.value, buf.AsBytes());
          if stored.Err? {
            return Err(stored.error);
          }
          return Ok(value);
        }
        index := save;
      }
      r := ParseTernaryExpr();
    }

    method ParseTernaryExpr() returns (r: Value)
      requires Valid()
      modifies this`index, this`skipDepth, ctx`vars
      ensures Valid()
      ensures r.Ok? ==> skipDepth == old(skipDepth)
      ensures Implements(ParseTernary(source, old(index)), PrefixTernary(source, old(index)), old(skipDepth), ctx.cfg, old(ctx.vars), r, index, ctx.vars)
      decreases |source| - index, 13
    {
      hide ParseTernary, PrefixTernary, ParseAssignment, ParseLevel, PrefixAssignment, PrefixLevel, Eager, Dry, RunEnd;
      ghost var i, skip, before := index, skipDepth, ctx.vars;
      var cond := ParseLogicalOr();
      ghost var mid := ctx.vars;
      TestOnly(source, i, skip, ctx.cfg, before, cond, index, mid);
      if cond.Err? {
        return cond;
      }
      SkipSpace();
      var question := Consume('?');
      if !question {
        return cond;
      }
      if cond.value == 0 {
        skipDepth := skipDepth + 1;
      }
      var thenVal := ParseAssignmentExpr();
      ghost var one := ctx.vars;
      YesRan(source, i, skip, ctx.cfg, before, cond.value, mid, thenVal, index, one);
      if thenVal.Err? {
        return thenVal;
      }
      if cond.value == 0 {
        skipDepth := skipDepth - 1;
      }
      SkipSpace();
      var colon := Consume(':');
      if !colon {
        return Err(ExpectedColon);
      }
      if cond.value != 0 {
        skipDepth := skipDepth + 1;
      }
      var elseVal := ParseAssignmentExpr();
      NoRan(source, i, skip, ctx.cfg, before, cond.value, mid, thenVal.value, one, elseVal, index, ctx.vars);
      if elseVal.Err? {
        return elseVal;
      }
      if cond.value != 0 {
        skipDepth := skipDepth - 1;
      }
      return if cond.value != 0 then thenVal else elseVal;
    }

    method ParseLogicalOr() returns (r: Value)
      requires Valid()
      modifies this`index, this`skipDepth, ctx`vars
      ensures Valid()
      ensures r.Ok? ==> skipDepth == old(skipDepth)
      ensures Did(0, source, old(index), old(skipDepth), ctx.cfg, old(ctx.vars), r, index, ctx.vars)
      decreases |source| - index, 12
    {
      hide Did, Midway, RunEnd, BitwiseI64, WrappingShl, WrappingShr, Wrap, TruncDiv, TruncRem;
      ghost var start, skip, before := index, skipDepth, ctx.vars;
      r := ParseLogicalAnd();
      ghost var left := LoopStart(0, source, start, skip, ctx.cfg, before, r, index, ctx.vars);
      if r.Err? {
        return;
      }
      var value: i64 := r.value;
      ghost var i, mid := index, ctx.vars;
      while true
        invariant start < index <= |source| && skipDepth == skip
        invariant Midway(0, left, source, start, index, skip, ctx.cfg, before, value, ctx.vars)
        decreases |source| - index
      {
        i, mid := index, ctx.vars;
        SkipSpace();
        var more := ConsumeBytes("||");
        if !more {
          break;
        }
        var decided := value != 0;
        if decided {
          skipDepth := skipDepth + 1;
        }
        r := ParseLogicalAnd();
        left := LoopTurn(0, left, source, start, i, skip, ctx.cfg, before, value, mid, OrElse, 2, r, index, ctx.vars);
        if r.Err? {
          return;
        }
        if decided {
          skipDepth := skipDepth - 1;
          value := 1;
        } else {
          value := Truth(r.value != 0);
        }
      }
      LoopExit(0, left, source, start, i, skip, ctx.cfg, before, value, ctx.vars);
      return Ok(value);
    }

    method ParseLogicalAnd() returns (r: Value)
      requires Valid()
      modifies this`index, this`skipDepth, ctx`vars
      ensures Valid()
      ensures r.Ok? ==> skipDepth == old(skipDepth)
      ensures Did(1, source, old(index), old(skipDepth), ctx.cfg, old(ctx.vars), r, index, ctx.vars)
      decreases |source| - index, 11
    {
      hide Did, Midway, RunEnd, BitwiseI64, WrappingShl, WrappingShr, Wrap, TruncDiv, TruncRem;
      ghost var start, skip, before := index, skipDepth, ctx.vars;
      r := ParseOperators(2);
      ghost var left := LoopStart(1, source, start, skip, ctx.cfg, before, r, index, ctx.vars);
      if r.Err? {
        return;
      }
      var value: i64 := r.value;
      ghost var i, mid := index, ctx.vars;
      while true
        invariant start < index <= |source| && skipDepth == skip
        invariant Midway(1, left, source, start, index, skip, ctx.cfg, before, value, ctx.vars)
        decreases |source| - index
      {
        i, mid := index, ctx.vars;
        SkipSpace();
        var more := ConsumeBytes("&&");
        if !more {
          break;
        }
        var decided := value == 0;
        if decided {
          skipDepth := skipDepth + 1;
        }
        r := ParseOperators(2);
        left := LoopTurn(1, left, source, start, i, skip, ctx.cfg, before, value, mid, AndAlso, 2, r, index, ctx.vars);
        if r.Err? {
          return;
        }
        if decided {
          skipDepth := skipDepth - 1;
          value := 0;
        } else {
          value := Truth(r.value != 0);
        }
      }
      LoopExit(1, left, source, start, i, skip, ctx.cfg, before, value, ctx.vars);
      return Ok(value);
    }

    /** `parse_bitwise_or` down to `parse_multiplicative`: eight methods that differ in the
        operators they look for and in the operand method they call, the next one down. */
    method ParseOperators(level: nat) returns (r: Value)
      requires Valid() && 2 <= level <= UNARY_LEVEL
      modifies this`index, this`skipDepth, ctx`vars
      ensures Valid()
      ensures r.Ok? ==> skipDepth == old(skipDepth)
      ensures Did(level, source, old(index), old(skipDepth), ctx.cfg, old(ctx.vars), r, index, ctx.vars)
      decreases |source| - index, 12 - level
    {
      hide Did, Midway, RunEnd, InfixAt, ApplyBinary;
      if level == UNARY_LEVEL {
        r := ParseUnary();
        return;
      }
      ghost var start, skip, before := index, skipDepth, ctx.vars;
      r := ParseOperators(level + 1);
      ghost var left := LoopStart(level, source, start, skip, ctx.cfg, before, r, index, ctx.vars);
      if r.Err? {
        return;
      }
      var value: i64 := r.value;
      ghost var i, mid := index, ctx.vars;
      while true
        invariant start < index <= |source| && skipDepth == skip
        invariant Midway(level, left, source, start, index, skip, ctx.cfg, before, value, ctx.vars)
        decreases |source| - index
      {
        i, mid := index, ctx.vars;
        SkipSpace();
        var op := TryConsumeInfix(level);
        if op.None? {
          break;
        }
        ghost var n := InfixAt(level, source, SkipWs(source, i)).value.1;
        r := ParseOperators(level + 1);
        left := LoopTurn(level, left, source, start, i, skip, ctx.cfg, before, value, mid, Op(op.value), n, r, index, ctx.vars);
        if r.Err? {
          return;
        }
        r := ApplyBinary(op.value, value, r.value);
        if r.Err? {
          return;
        }
        value := r.value;
      }
      LoopExit(level, left, source, start, i, skip, ctx.cfg, before, value, ctx.vars);
      return Ok(value);
    }

    method ParseUnary() returns (r: Value)
      requires Valid()
      modifies this`index, this`skipDepth, ctx`vars
      ensures Valid()
      ensures r.Ok? ==> skipDepth == old(skipDepth)
      ensures Did(UNARY_LEVEL, source, old(index), old(skipDepth), ctx.cfg, old(ctx.vars), r, index, ctx.vars)
      decreases |source| - index, 1
    {
      hide ParsePrimary, PrefixPrimary, ParseLevel, PrefixLevel, ApplyUnary, RunEnd;
      UnaryLevelParse(source, index);
      SkipSpace();
      UnaryLevelParse(source, if index < |source| then index + 1 else index);
      var op := None;
      if Sees('+') {
        op := Some(Plus);
      } else if Sees('-') {
        op := Some(Minus);
      } else if Sees('~') {
        op := Some(Complement);
      } else if Sees('!') && !SeesAt(1, '=') {
        op := Some(Not);
      }
      if op.None? {
        r := ParsePrimaryExpr();
        return;
      }
      index := index + 1;
      r := ParseUnary();
      if r.Ok? {
        r := Ok(ApplyUnary(op.value, r.value));
      }
    }

    method ParsePrimaryExpr() returns (r: Value)
      requires Valid()
      modifies this`index, this`skipDepth, ctx`vars
      ensures Valid()
      ensures r.Ok? ==> skipDepth == old(skipDepth)
      ensures Implements(ParsePrimary(source, old(index)), PrefixPrimary(source, old(index)), old(skipDepth), ctx.cfg, old(ctx.vars), r, index, ctx.vars)
      decreases |source| - index, 0
    {
      hide ParseAssignment, ParseNumber, ParsePrimary, RunEnd, Resolve, Eager, Dry, LooksAt, InClass;
      PrimaryParse(source, index);
      SkipSpace();
      assert SkipWs(source, index) == index by {
        SkipsOnce(source, old(index));
      }
      var open := Consume('(');
      if open {
        var value := ParseAssignmentExpr();
        if value.Err? {
          return value;
        }
        SkipSpace();
        var close := Consume(')');
        if !close {
          return Err(MissingParen);
        }
        return value;
      }
      var name := TryScanName();
      if name.Some? {
        RunVar(name.value, skipDepth, ctx.cfg, ctx.vars);
        r := ResolveVar(name.value);
        return;
      }
      r := ParseNumberLiteral();
    }

    method ParseNumberLiteral() returns (r: Value)
      requires Valid()
      modifies this`index
      ensures Valid()
      ensures forall skip: nat, cfg, vars ::
                Implements(ParseNumber(source, SkipWs(source, old(index))), Num(0), skip, cfg, vars, r, index, vars)
    {
      hide RunEnd, Decimal.ParseRadix, Decimal.ParseSigned;
      SkipSpace();
      var start := index;
      if Sees('0') {
        index := index + 1;
        if Sees('x') || Sees('X') {
          index := index + 1;
          var hexStart := index;
          ScanRun(HexDigit);
          if index == hexStart {
            return Err(InvalidHex);
          }
          var hex := Decimal.ParseHexI64(source[hexStart..index]);
          return match hex case Some(v) => Ok(v) case None => Err(InvalidHex);
        }
        if index < |source| && IsDigit(source[index]) {
          ScanRun(Digit);
          var octal := Decimal.ParseOctalI64(source[start + 1..index]);
          return match octal case Some(v) => Ok(v) case None => Err(InvalidOctal);
        }
        return Ok(0);
      }
      ScanRun(Digit);
      if start == index {
        return Err(ExpectedOperand);
      }
      var number := Decimal.ParseI64(source[start..index]);
      return match number case Some(v) => Ok(v) case None => Err(InvalidOperand);
    }
  }

  /** `eval_arithmetic`: on any text whatever, the outcome is that of parsing it to a tree and
      taking the tree's one-pass meaning; a text that does not parse is an error, and the
      variables are those that what was read before it leaves. */
  method EvalArithmetic(ctx: Context, expression: string) returns (r: Value)
    modifies ctx`vars
    ensures match ParseExpression(expression)
            case Err(_) => r.Err? && ctx.vars == Eager(PrefixExpression(expression), ctx.cfg, old(ctx.vars)).vars
            case Ok(e) => Outcome(r, ctx.vars) == Eager(e, ctx.cfg, old(ctx.vars))
  {
    var parser := new ArithmeticParser(ctx, expression);
    r := parser.ParseAssignmentExpr();
    if r.Err? {
      return;
    }
    parser.SkipSpace();
    if parser.index < |expression| {
      return Err(TrailingTokens);
    }
  }
}
