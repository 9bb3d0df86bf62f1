/** Small programs from the events they draw: what each construct does with the status of the
    command it tests, and how far `break` and `continue` go. */
module FlowPrograms {
  import opened Wrappers
  import opened FlowProgram
  import opened FlowStructured
  import opened FlowTheorems
  import Decimal

  // ----- One simple command -----

  lemma SimpleRuns(power: Power, ctx: Context, st: State, fuel: nat)
    ensures RunAndOr(SimpleList(power, []), ctx, st, fuel)
         == Checked(RunSimple(Admitted(power, Draw(ctx, st)), ctx, Drawn(Begun(st))), ctx)
  {
    var p := Pipeline(false, Simple(power));
    assert RunCommand(Simple(power), ctx, Begun(st), fuel) == RunSimple(Admitted(power, Draw(ctx, st)), ctx, Drawn(Begun(st)));
    assert RunPipeline(p, ctx, st, fuel) == RunCommand(Simple(power), ctx, Begun(st), fuel);
  }

  /** Errexit cannot fire. */
  predicate Lenient(ctx: Context, st: State) {
    ctx.suppressed || !st.errexit
  }

  /** A command that finishes with status `s`, and the state after it as the only item of a program. */
  function After(st: State, s: int): State {
    Drawn(Begun(Begun(st))).(last := s)
  }

  lemma CommandProgram(ctx: Context, st: State, s: int, fuel: nat)
    requires Draw(ctx, st) == Finish(s) && Lenient(ctx, st)
    ensures RunProgram(Program([SimpleList(Ordinary, [])]), ctx, st, fuel) == Step(Normal(s), After(st, s))
  {
    hide RunAndOr;
    SimpleRuns(Ordinary, ctx, Begun(st), fuel);
    OneItem(SimpleList(Ordinary, []), ctx, st, fuel);
  }

  // ----- Sequences -----

  /** After a command the next item runs, unless the command failed and errexit ends the shell. */
  lemma SequenceGoesOn(rest: seq<AndOr>, status: int, s: int, ctx: Context, st: State, fuel: nat)
    requires Draw(ctx, st) == Finish(s)
    ensures var after := Drawn(Begun(st)).(last := s);
            RunItems([SimpleList(Ordinary, [])] + rest, status, ctx, st, fuel)
            == if s != 0 && !Lenient(ctx, st) then Step(Exit(s, None), after) else RunItems(rest, s, ctx, after, fuel)
  {
    hide RunAndOr;
    SimpleRuns(Ordinary, ctx, st, fuel);
    Sequence(SimpleList(Ordinary, []), rest);
  }

  lemma Sequence(item: AndOr, rest: seq<AndOr>)
    ensures ([item] + rest)[0] == item && ([item] + rest)[1..] == rest
  {
  }

  /** After `exit n` no item runs. */
  lemma ExitEndsTheSequence(rest: seq<AndOr>, status: int, n: int, ctx: Context, st: State, fuel: nat)
    requires -0x8000_0000 <= n <= 0x7fff_ffff && Draw(ctx, st) == ExitCall([Decimal.Text(n)])
    ensures RunItems([SimpleList(Any, [])] + rest, status, ctx, st, fuel)
         == Step(Exit(n, None), Drawn(Begun(st)).(last := n))
  {
    hide RunAndOr, ParseI32;
    SimpleRuns(Any, ctx, st, fuel);
    Sequence(SimpleList(Any, []), rest);
    OperandIsRead(n);
  }

  lemma OperandIsRead(n: int)
    requires -0x8000_0000 <= n <= 0x7fff_ffff
    ensures ParseI32(Decimal.Text(n)) == Some(n)
  {
    Decimal.ParseInvertsText(n);
  }

  /** `set -e` and `set +e` finish with 0 and say whether a failure from then on ends the shell. */
  lemma SetErrexitDecides(on: bool, rest: seq<AndOr>, status: int, s: int, ctx: Context, st: State, fuel: nat)
    requires Draw(ctx, st) == SetErrexit(on) && ctx.tape(st.pos + 1) == Finish(s) && s != 0 && !ctx.suppressed
    ensures var step := RunItems([SimpleList(Ordinary, [])] + ([SimpleList(Ordinary, [])] + rest), status, ctx, st, fuel);
            var after := st.(pos := st.pos + 2, errexit := on, last := s, begun := st.begun + 2);
            step == if on then Step(Exit(s, None), after) else RunItems(rest, s, ctx, after, fuel)
  {
    hide RunAndOr;
    var item := SimpleList(Ordinary, []);
    SimpleRuns(Ordinary, ctx, st, fuel);
    Sequence(item, [item] + rest);
    SequenceGoesOn(rest, 0, s, ctx, Drawn(Begun(st)).(errexit := on, last := 0), fuel);
  }

  // ----- Lists and negation -----

  /** `a && b` runs b exactly when a finishes with 0, `a || b` exactly when it does not; the list
      has the status of what ran last. */
  lemma ListChooses(op: LogicalOp, s: int, t: int, ctx: Context, st: State, fuel: nat)
    requires Draw(ctx, st) == Finish(s) && ctx.tape(st.pos + 1) == Finish(t) && Lenient(ctx, st)
    ensures var step := RunAndOr(SimpleList(Ordinary, [Link(op, Pipeline(false, Simple(Ordinary)))]), ctx, st, fuel);
            var both := if op == And then s == 0 else s != 0;
            && step.outcome == Normal(if both then t else s)
            && step.state.pos == st.pos + if both then 2 else 1
  {
    var p := Pipeline(false, Simple(Ordinary));
    var first := RunPipeline(p, Suppressed(ctx), st, fuel);
    assert RunCommand(Simple(Ordinary), Suppressed(ctx), Begun(st), fuel) == Step(Normal(s), Drawn(Begun(st)));
    assert first == Step(Normal(s), Drawn(Begun(st)));
    assert RunCommand(Simple(Ordinary), ctx, Begun(first.state), fuel) == Step(Normal(t), Drawn(Begun(first.state)));
    var second := RunPipeline(p, ctx, first.state, fuel);
    var links := [Link(op, p)];
    assert links[1..] == [];
    assert RunLinks([], first, ctx, fuel) == first && RunLinks([], second, ctx, fuel) == second;
    assert RunLinks(links, first, ctx, fuel) == if Selects(op, s) then second else first;
  }

  /** A negation makes 1 of 0 and 0 of anything else. */
  lemma NegationInverts(s: int, ctx: Context, st: State, fuel: nat)
    requires Draw(ctx, st) == Finish(s)
    ensures RunPipeline(Pipeline(true, Simple(Ordinary)), ctx, st, fuel)
         == Step(Normal(if s == 0 then 1 else 0), Drawn(Begun(st)))
  {
    assert RunCommand(Simple(Ordinary), Suppressed(ctx), Begun(st), fuel) == Step(Normal(s), Drawn(Begun(st)));
  }

  // ----- Conditionals -----

  /** `if` takes the first branch when its condition finishes with 0 and the other one otherwise;
      without one it finishes with 0. */
  lemma IfChooses(s: int, yes: Program, no: Option<Program>, ctx: Context, st: State, fuel: nat)
    requires Draw(ctx, st) == Finish(s)
    ensures RunCommand(If(Program([SimpleList(Ordinary, [])]), yes, [], no), ctx, st, fuel)
         == if s == 0 then RunProgram(yes, ctx, After(st, s), fuel)
            else if no.Some? then RunProgram(no.value, ctx, After(st, s), fuel)
            else Step(Normal(0), After(st, s))
  {
    hide RunProgram;
    CommandProgram(Suppressed(ctx), st, s, fuel);
  }

  /** After a condition that fails, an `elif` is an `if` of its own, whatever its condition is. */
  lemma ElifIsAnotherIf(s: int, yes: Program, other: Branch, rest: seq<Branch>, no: Option<Program>,
                        ctx: Context, st: State, fuel: nat)
    requires Draw(ctx, st) == Finish(s) && s != 0
    ensures RunCommand(If(Program([SimpleList(Ordinary, [])]), yes, [other] + rest, no), ctx, st, fuel)
         == RunCommand(If(other.condition, other.body, rest, no), ctx, After(st, s), fuel)
  {
    hide RunProgram;
    var elifs := [other] + rest;
    assert elifs[0] == other && elifs[1..] == rest;
    CommandProgram(Suppressed(ctx), st, s, fuel);
  }

  /** A compound command whose redirections cannot be applied is not begun. */
  lemma RefusedIsNotBegun(command: Command, s: int, ctx: Context, st: State, fuel: nat)
    ensures Draw(ctx, st) == Refused(s) ==>
              RunCommand(FlowProgram.Redirected(command), ctx, st, fuel) == Step(Normal(s), st.(pos := st.pos + 1))
    ensures Draw(ctx, st) == Finish(s) ==>
              RunCommand(FlowProgram.Redirected(command), ctx, st, fuel) == RunCommand(command, ctx, st.(pos := st.pos + 1), fuel)
  {
  }

  /** `case` runs the first arm that matches, and finishes with 0 when none does. */
  lemma {:induction false} CaseTakesTheFirstMatch(arms: seq<Arm>, k: nat, ctx: Context, st: State, fuel: nat)
    requires k <= |arms| && (k < |arms| ==> !arms[k].fallthrough)
    requires forall at: nat :: st.pos <= at < st.pos + k ==> ctx.tape(at) == Match(false)
    requires k < |arms| ==> ctx.tape(st.pos + k) == Match(true)
    ensures RunArms(arms, false, ctx, st, fuel)
         == if k < |arms| then RunProgram(arms[k].body, ctx, st.(pos := st.pos + k + 1), fuel)
            else Step(Normal(0), st.(pos := st.pos + k))
    decreases k
  {
    hide RunProgram;
    if k > 0 {
      CaseTakesTheFirstMatch(arms[1..], k - 1, ctx, Drawn(st), fuel);
    }
  }

  /** After a matching arm that ends with `;&` the next arm runs whether it matches or not, and no
      pattern is tried. */
  lemma FallThroughTakesTheNext(next: Arm, rest: seq<Arm>, s: int, ctx: Context, st: State, fuel: nat)
    requires Draw(ctx, st) == Match(true) && ctx.tape(st.pos + 1) == Finish(s) && Lenient(ctx, st)
    requires !next.fallthrough
    ensures RunArms([Arm(Program([SimpleList(Ordinary, [])]), true), next] + rest, false, ctx, st, fuel)
         == RunProgram(next.body, ctx, After(Drawn(st), s), fuel)
  {
    hide RunProgram;
    var arms := [Arm(Program([SimpleList(Ordinary, [])]), true), next] + rest;
    assert arms[1..] == [next] + rest;
    CommandProgram(ctx, Drawn(st), s, fuel);
  }

  // ----- Function calls -----

  /** `return n` in a function is the status of its call; without an operand it is the status of
      the command before. An unknown name gives 127. */
  lemma CallReturns(name: string, n: int, ctx: Context, st: State, fuel: nat)
    requires -0x8000_0000 <= n <= 0x7fff_ffff && fuel >= 1
    ensures name !in ctx.functions ==> RunCommand(Call(name), ctx, st, fuel) == Step(Normal(127), st)
    ensures name in ctx.functions && ctx.functions[name] == Simple(Returns) && Draw(ctx, st) == ReturnCall([Decimal.Text(n)]) ==>
              RunCommand(Call(name), ctx, st, fuel) == Step(Normal(n), Drawn(st))
    ensures name in ctx.functions && ctx.functions[name] == Simple(Returns) && Draw(ctx, st) == ReturnCall([]) ==>
              RunCommand(Call(name), ctx, st, fuel) == Step(Normal(st.last), Drawn(st))
  {
    hide ParseI32;
    OperandIsRead(n);
    var inner := ctx.(functionDepth := ctx.functionDepth + 1);
    assert RunCommand(Simple(Returns), inner, st, fuel - 1) == RunSimple(Admitted(Returns, Draw(ctx, st)), inner, Drawn(st));
  }

  // ----- Loops -----

  /** `while` takes a turn when its condition finishes with 0, `until` when it does not. */
  lemma LoopTests(until: bool, s: int, body: Program, last: int, ctx: Context, st: State, fuel: nat)
    requires Draw(ctx, st) == Finish(s) && fuel >= 1
    ensures var condition := Program([SimpleList(Ordinary, [])]);
            RunLoop(until, condition, body, last, ctx, st, fuel)
            == if (if until then s == 0 else s != 0) then Step(Normal(last), After(st, s))
               else
                 var b := RunProgram(body, Inside(ctx), After(st, s), fuel - 1);
                 (match AfterBody(b.outcome, ctx.depth + 1)
                  case Leave(o) => Step(o, b.state)
                  case Again(t) => RunLoop(until, condition, body, t, ctx, b.state, fuel - 1))
  {
    hide RunProgram;
    CommandProgram(Suppressed(Inside(ctx)), st, s, fuel - 1);
  }

  /** A body that begins with `break` or `continue` runs nothing after it. */
  lemma JumpEndsTheBody(again: bool, rest: seq<AndOr>, ctx: Context, st: State, fuel: nat)
    requires ctx.depth >= 1 && Draw(ctx, st) == (if again then ContinueCall([]) else BreakCall([]))
    ensures RunProgram(Program([SimpleList(Jumps, [])] + rest), ctx, st, fuel)
         == Step(Jump(ctx.depth, again, 0), After(st, 0))
  {
    hide RunAndOr;
    SimpleRuns(Jumps, ctx, Begun(st), fuel);
    Sequence(SimpleList(Jumps, []), rest);
    var p := Program([SimpleList(Jumps, [])] + rest);
    assert p.items == [SimpleList(Jumps, [])] + rest;
  }

  /** A for loop whose body begins with `continue` goes through all its words. */
  lemma {:induction false} ContinueTakesEveryWord(rest: seq<AndOr>, words: nat, last: int, ctx: Context, st: State, fuel: nat)
    requires forall k: nat :: k < words ==> !ctx.tape(st.pos + 2 * k).Fail? && ctx.tape(st.pos + 2 * k + 1) == ContinueCall([])
    ensures var step := RunFor(Program([SimpleList(Jumps, [])] + rest), words, last, ctx, st, fuel);
            && step.outcome == Normal(if words == 0 then last else 0)
            && step.state.pos == st.pos + 2 * words
    decreases words
  {
    hide RunProgram;
    if words > 0 {
      assert !ctx.tape(st.pos + 2 * 0).Fail? && ctx.tape(st.pos + 2 * 0 + 1) == ContinueCall([]);
      JumpEndsTheBody(true, rest, Inside(ctx), Drawn(st), fuel);
      var next := After(Drawn(st), 0);
      forall k: nat | k < words - 1
        ensures !ctx.tape(next.pos + 2 * k).Fail? && ctx.tape(next.pos + 2 * k + 1) == ContinueCall([])
      {
        assert !ctx.tape(st.pos + 2 * (k + 1)).Fail? && ctx.tape(st.pos + 2 * (k + 1) + 1) == ContinueCall([]);
      }
      ContinueTakesEveryWord(rest, words - 1, 0, ctx, next, fuel);
    }
  }

  /** One whose body begins with `break` ends after the first word. */
  lemma BreakTakesOneWord(rest: seq<AndOr>, words: nat, last: int, ctx: Context, st: State, fuel: nat)
    requires words > 0 && !Draw(ctx, st).Fail? && ctx.tape(st.pos + 1) == BreakCall([])
    ensures RunFor(Program([SimpleList(Jumps, [])] + rest), words, last, ctx, st, fuel)
         == Step(Normal(0), After(Drawn(st), 0))
  {
    hide RunProgram;
    JumpEndsTheBody(false, rest, Inside(ctx), Drawn(st), fuel);
  }

  // ----- How far a jump goes -----

  /** How many enclosing loops an outcome of the innermost body leaves. */
  function LoopsLeft(o: Outcome, depth: nat): nat {
    if depth == 0 then 0
    else
      match AfterBody(o, depth)
      case Again(_) => 0
      case Leave(next) => 1 + if next.Jump? then LoopsLeft(next, depth - 1) else 0
  }

  /** The first loop that is not left takes another turn because of it. */
  predicate TurnsAgain(o: Outcome, depth: nat) {
    depth > 0 &&
    match AfterBody(o, depth)
    case Again(_) => true
    case Leave(next) => next.Jump? && TurnsAgain(next, depth - 1)
  }

  lemma {:induction false} JumpGoes(target: nat, again: bool, s: int, depth: nat)
    requires 1 <= target <= depth
    ensures LoopsLeft(Jump(target, again, s), depth) == depth - target + if again then 0 else 1
    ensures TurnsAgain(Jump(target, again, s), depth) <==> again
    decreases depth
  {
    if target < depth {
      JumpGoes(target, again, s, depth - 1);
    }
  }

  /** Of d enclosing loops `break k` leaves min(k, d). `continue k` leaves one fewer, and the next
      one takes another turn. */
  lemma JumpLevels(args: seq<string>, k: nat, ctx: Context, st: State)
    requires ctx.depth >= 1 && LoopCount(args) == Some(k)
    ensures var o := RunSimple(BreakCall(args), ctx, st).outcome;
            LoopsLeft(o, ctx.depth) == Min(k, ctx.depth) && !TurnsAgain(o, ctx.depth)
    ensures var o := RunSimple(ContinueCall(args), ctx, st).outcome;
            LoopsLeft(o, ctx.depth) == Min(k, ctx.depth) - 1 && TurnsAgain(o, ctx.depth)
  {
    var target := TargetOf(ctx.depth, k);
    JumpGoes(target, false, 0, ctx.depth);
    JumpGoes(target, true, 0, ctx.depth);
  }

  /** The operand is the number of levels, 1 if there is none; 0 and a second operand are errors. */
  lemma LevelOperand(k: nat, more: seq<string>)
    requires k <= 0x7fff_ffff_ffff_ffff
    ensures LoopCount([]) == Some(1)
    ensures LoopCount([Decimal.Text(k)]) == if k >= 1 then Some(k) else None
    ensures more != [] ==> LoopCount([Decimal.Text(k)] + more) == None
  {
    Decimal.ParseInvertsText(k);
  }
}
