/** Structured big-step semantics of shell control flow: the reference for the interpreter.
    Nothing is saved and restored here. Loop depth and errexit suppression are inherited
    from the context, and a `break` or `continue` is an outcome addressed to one particular
    enclosing loop, named by its depth. */
module FlowStructured {
  import opened Wrappers
  import opened FlowProgram

  /** Control on its way, with the number of loops still to leave. */
  datatype Control = BreakOut(levels: nat) | ContinueOut(levels: nat) | ReturnWith(value: int)

  datatype Outcome =
    | Normal(status: int)
    | Jump(target: nat, again: bool, status: int)  // to the enclosing loop at depth `target`
    | Return(value: int, status: int)
    | Exit(status: int, overtaken: Option<Control>)   // errexit may overtake a transfer of control
    | Error(error: ShellError)
    | Misplaced   // control arrived where the interpreter begins something more first

  /** What a command inherits from the commands around it. */
  datatype Context = Context(depth: nat, suppressed: bool, functionDepth: nat, functions: Functions, tape: Tape)

  /** What commands change: the tape position, the errexit option, `$?`, and how many
      pipelines and compound lists have been begun. */
  datatype State = State(pos: nat, errexit: bool, last: int, begun: nat)

  datatype Step = Step(outcome: Outcome, state: State)

  predicate HasStatus(o: Outcome) {
    o.Normal? || o.Jump? || o.Return? || o.Exit?
  }

  predicate Abrupt(o: Outcome) {
    o.Jump? || o.Return? || o.Exit?
  }

  function WithStatus(o: Outcome, s: int): Outcome
    requires HasStatus(o)
  {
    match o
    case Normal(_) => Normal(s)
    case Jump(target, again, _) => Jump(target, again, s)
    case Return(value, _) => Return(value, s)
    case Exit(_, overtaken) => Exit(s, overtaken)
  }

  function Suppressed(ctx: Context): Context {
    ctx.(suppressed := true)
  }

  function SuppressedIf(ctx: Context, b: bool): Context {
    if b then Suppressed(ctx) else ctx
  }

  function Inside(ctx: Context): Context {
    ctx.(depth := ctx.depth + 1)
  }

  /** The loop that `break n` or `continue n` means at this depth: the n-th enclosing one,
      or the outermost when there are fewer. */
  function TargetOf(depth: nat, n: nat): (t: nat)
    requires depth >= 1 && n >= 1
    ensures 1 <= t <= depth
    ensures n <= depth ==> depth - t == n - 1
    ensures n >= depth ==> t == 1
  {
    depth - Min(n, depth) + 1
  }

  // ----- Simple commands -----

  function RunSimple(e: Event, ctx: Context, st: State): Step {
    match e
    case Finish(s) => Step(Normal(s), st)
    case Fail(s) => Step(Error(Failed(s)), st)
    case SetErrexit(on) => Step(Normal(0), st.(errexit := on))
    case ExitCall(args) =>
      (match ExitStatus(args, st.last)
       case None => Step(Error(Failed(2)), st)
       case Some(s) => Step(Exit(s, None), st))
    case ReturnCall(args) =>
      if ctx.functionDepth == 0 then Step(Error(Failed(1)), st)
      else
        (match ReturnStatus(args, st.last)
         case None => Step(Error(Failed(1)), st)
         case Some(s) => Step(Return(s, s), st))
    case BreakCall(args) => Step(RunJump(args, false, ctx), st)
    case ContinueCall(args) => Step(RunJump(args, true, ctx), st)
    case Words(_) => Step(Normal(0), st)
    case Match(_) => Step(Normal(0), st)
    case Refused(s) => Step(Normal(s), st)
  }

  function RunJump(args: seq<string>, again: bool, ctx: Context): Outcome {
    if ctx.depth == 0 || LoopCount(args).None? then Error(Failed(1))
    else Jump(TargetOf(ctx.depth, LoopCount(args).value), again, 0)
  }

  function Draw(ctx: Context, st: State): Event {
    ctx.tape(st.pos)
  }

  function Drawn(st: State): State {
    st.(pos := st.pos + 1)
  }

  function Begun(st: State): State {
    st.(begun := st.begun + 1)
  }

  // ----- Lists -----

  /** The items of a program in order, until one does not complete normally. */
  function RunItems(items: seq<AndOr>, status: int, ctx: Context, st: State, fuel: nat): Step
    decreases fuel, items, 0
  {
    if items == [] then Step(Normal(status), st)
    else
      var step := RunAndOr(items[0], ctx, st, fuel);
      if !HasStatus(step.outcome) then step
      else
        var after := step.state.(last := step.outcome.status);
        if step.outcome.Normal? then RunItems(items[1..], step.outcome.status, ctx, after, fuel)
        else Step(step.outcome, after)
  }

  function RunProgram(p: Program, ctx: Context, st: State, fuel: nat): Step
    decreases fuel, p, 0
  {
    RunItems(p.items, 0, ctx, Begun(st), fuel)
  }

  /** errexit: a failed and-or list whose last pipeline is not negated ends the shell,
      unless the context suppresses that. */
  function Checked(step: Step, ctx: Context): Step {
    if HasStatus(step.outcome) && step.outcome.status != 0 && step.state.errexit && !ctx.suppressed
    then Step(Exit(step.outcome.status, InFlight(step.outcome, ctx.depth)), step.state.(last := step.outcome.status))
    else step
  }

  /** The transfer of control that an outcome at this depth stands for. */
  function InFlight(o: Outcome, depth: nat): Option<Control> {
    match o
    case Jump(target, again, _) => if target <= depth then Some(JumpOut(depth - target + 1, again)) else None
    case Return(value, _) => Some(ReturnWith(value))
    case Exit(_, overtaken) => overtaken
    case _ => None
  }

  function JumpOut(levels: nat, again: bool): Control {
    if again then ContinueOut(levels) else BreakOut(levels)
  }

  function LastPipeline(node: AndOr): Pipeline {
    if node.rest == [] then node.first else node.rest[|node.rest| - 1].pipeline
  }

  function RunAndOr(node: AndOr, ctx: Context, st: State, fuel: nat): Step
    decreases fuel, node, 0
  {
    var step :=
      if node.rest == [] then RunPipeline(node.first, ctx, st, fuel)
      else RunLinks(node.rest, RunPipeline(node.first, Suppressed(ctx), st, fuel), ctx, fuel);
    if LastPipeline(node).negated then step else Checked(step, ctx)
  }

  /** The remaining operands: each runs or not by the status so far, and only the last one
      is free of errexit suppression. */
  function RunLinks(links: seq<Link>, step: Step, ctx: Context, fuel: nat): Step
    decreases fuel, links, 0
  {
    if links == [] || !HasStatus(step.outcome) then step
    else
      assert (links decreases to links[0]) && (links[0] decreases to links[0].pipeline);
      if !Selects(links[0].op, step.outcome.status) then RunLinks(links[1..], step, ctx, fuel)
      else if Abrupt(step.outcome) then Step(Misplaced, step.state)
      else
        RunLinks(links[1..], RunPipeline(links[0].pipeline, SuppressedIf(ctx, |links| > 1), step.state, fuel), ctx, fuel)
  }

  function RunPipeline(p: Pipeline, ctx: Context, st: State, fuel: nat): Step
    decreases fuel, p, 0
  {
    var step := RunCommand(p.command, SuppressedIf(ctx, p.negated), Begun(st), fuel);
    if p.negated && HasStatus(step.outcome)
    then Step(WithStatus(step.outcome, Inverted(step.outcome.status)), step.state)
    else step
  }

  // ----- Commands -----

  function RunCommand(c: Command, ctx: Context, st: State, fuel: nat): Step
    decreases fuel, c, 0
  {
    match c
    case Simple(power) => RunSimple(Admitted(power, Draw(ctx, st)), ctx, Drawn(st))
    case Forked => RunForked(Draw(ctx, st), Drawn(st))
    case Call(name) =>
      if name !in ctx.functions then Step(Normal(127), st)
      else if fuel == 0 then Step(Error(OutOfFuel), st)
      else
        var step := RunCommand(ctx.functions[name], ctx.(functionDepth := ctx.functionDepth + 1), st, fuel - 1);
        Step(Returned(step.outcome), step.state)
    case Group(body) => RunProgram(body, ctx, st, fuel)
    case Redirected(command) =>
      var e := Draw(ctx, st);
      if e.Fail? then Step(Error(Failed(e.status)), Drawn(st))
      else if e.Refused? then Step(Normal(e.status), Drawn(st))
      else RunCommand(command, ctx, Drawn(st), fuel)
    case If(condition, thenBranch, elifs, otherwise) =>
      var step := RunProgram(condition, Suppressed(ctx), st, fuel);
      if !HasStatus(step.outcome) then step
      else if step.outcome.status == 0 then
        if Abrupt(step.outcome) then Step(Misplaced, step.state) else RunProgram(thenBranch, ctx, step.state, fuel)
      else
        var chain := RunElifs(elifs, step, ctx, fuel);
        if chain.Taken? then chain.step
        else if otherwise.None? then Step(WithStatus(chain.step.outcome, 0), chain.step.state)
        else if Abrupt(chain.step.outcome) then Step(Misplaced, chain.step.state)
        else RunProgram(otherwise.value, ctx, chain.step.state, fuel)
    case Loop(until, condition, body) => RunLoop(until, condition, body, 0, ctx, st, fuel)
    case For(body) =>
      var e := Draw(ctx, st);
      if e.Fail? then Step(Error(Failed(e.status)), Drawn(st))
      else RunFor(body, if e.Words? then e.count else 0, 0, ctx, Drawn(st), fuel)
    case Case(arms) =>
      var e := Draw(ctx, st);
      if e.Fail? then Step(Error(Failed(e.status)), Drawn(st)) else RunArms(arms, false, ctx, Drawn(st), fuel)
  }

  /** A function call catches the return of its body. */
  function Returned(o: Outcome): Outcome {
    match o
    case Return(value, _) => Normal(value)
    case Exit(_, Some(ReturnWith(value))) => Exit(value, None)
    case _ => o
  }

  function RunForked(e: Event, st: State): Step {
    if e.Fail? then Step(Error(Failed(e.status)), st)
    else Step(Normal(if e.Finish? then e.status else 0), st)
  }

  /** How an elif chain ends: in some branch or error, or past its last condition. */
  datatype Chain = Taken(step: Step) | Past(step: Step)

  /** After a condition that was false: `step` is its outcome. */
  function RunElifs(elifs: seq<Branch>, step: Step, ctx: Context, fuel: nat): (chain: Chain)
    requires HasStatus(step.outcome)
    ensures chain.Past? ==> HasStatus(chain.step.outcome)
    decreases fuel, elifs, 0
  {
    if elifs == [] then Past(step)
    else if Abrupt(step.outcome) then Taken(Step(Misplaced, step.state))
    else
      assert (elifs decreases to elifs[0]) && (elifs[0] decreases to elifs[0].condition);
      assert elifs[0] decreases to elifs[0].body;
      var next := RunProgram(elifs[0].condition, Suppressed(ctx), step.state, fuel);
      if !HasStatus(next.outcome) then Taken(next)
      else if next.outcome.status == 0 then
        if Abrupt(next.outcome) then Taken(Step(Misplaced, next.state))
        else Taken(RunProgram(elifs[0].body, ctx, next.state, fuel))
      else RunElifs(elifs[1..], next, ctx, fuel)
  }

  /** The condition asks for another turn. */
  predicate ShouldRun(until: bool, status: int) {
    (status == 0) != until
  }

  /** Turns of a while or until loop; `last` is the status of the latest body. */
  function RunLoop(until: bool, condition: Program, body: Program, last: int, ctx: Context, st: State, fuel: nat): Step
    decreases fuel, body, 1, 0
  {
    if fuel == 0 then Step(Error(OutOfFuel), st)
    else
      var inner := Inside(ctx);
      var c := RunProgram(condition, Suppressed(inner), st, fuel - 1);
      match c.outcome
      case Error(_) => c
      case Misplaced => c
      case Return(value, _) => Step(Return(value, last), c.state)
      case Exit(s, _) => if ShouldRun(until, s) then Step(Misplaced, c.state) else Step(WithStatus(c.outcome, last), c.state)
      case Jump(target, again, _) =>
        if target < inner.depth then Step(Jump(target, again, last), c.state)
        else if again then RunLoop(until, condition, body, last, ctx, c.state, fuel - 1)
        else Step(Normal(last), c.state)
      case Normal(s) =>
        if !ShouldRun(until, s) then Step(Normal(last), c.state)
        else
          var b := RunProgram(body, inner, c.state, fuel - 1);
          match AfterBody(b.outcome, inner.depth)
          case Leave(o) => Step(o, b.state)
          case Again(s) => RunLoop(until, condition, body, s, ctx, b.state, fuel - 1)
  }

  /** What a loop at depth `depth` does when its body ends. */
  datatype Turn = Leave(outcome: Outcome) | Again(status: int)

  function AfterBody(o: Outcome, depth: nat): Turn {
    match o
    case Normal(s) => Again(s)
    case Jump(target, again, s) =>
      if target < depth then Leave(o)
      else if again then Again(s)
      else Leave(Normal(s))
    case _ => Leave(o)
  }

  /** The remaining words of a for loop. Assigning the loop variable may fail. */
  function RunFor(body: Program, words: nat, last: int, ctx: Context, st: State, fuel: nat): Step
    decreases fuel, body, 1, words
  {
    if words == 0 then Step(Normal(last), st)
    else
      var e := Draw(ctx, st);
      if e.Fail? then Step(Error(Failed(e.status)), Drawn(st))
      else
        var inner := Inside(ctx);
        var b := RunProgram(body, inner, Drawn(st), fuel);
        match AfterBody(b.outcome, inner.depth)
        case Leave(o) => Step(o, b.state)
        case Again(s) => RunFor(body, words - 1, s, ctx, b.state, fuel)
  }

  /** The remaining arms of a case; with `matched`, an earlier arm fell through into them. */
  function RunArms(arms: seq<Arm>, matched: bool, ctx: Context, st: State, fuel: nat): Step
    decreases fuel, arms, 0
  {
    if arms == [] then Step(Normal(0), st)
    else
      var e := Draw(ctx, st);
      if !matched && e.Fail? then Step(Error(Failed(e.status)), Drawn(st))
      else
        var st1 := if matched then st else Drawn(st);
        if !matched && !(e.Match? && e.hit) then RunArms(arms[1..], false, ctx, st1, fuel)
        else
          assert (arms decreases to arms[0]) && (arms[0] decreases to arms[0].body);
          var step := RunProgram(arms[0].body, ctx, st1, fuel);
          if !HasStatus(step.outcome) || !arms[0].fallthrough || |arms| == 1 then step
          else if Abrupt(step.outcome) then Step(Misplaced, step.state)
          else RunArms(arms[1..], true, ctx, step.state, fuel)
  }
}
