/** The interpreter of src/exec/{command,and_or,program,pipeline}.rs: control flow travels
    through flags of the shell object. Every method is proved to restore what it must
    (`Keeps`) and to refine the structured semantics (`Refines`). */
module FlowShell {
  import opened Wrappers
  import opened FlowProgram
  import opened FlowStructured

  type Status = Result<int, ShellError>

  /** All the fields of the shell at one moment. */
  datatype View = View(
    pos: nat, errexit: bool, last: int, loopDepth: nat, functionDepth: nat,
    pending: Option<Control>, suppressed: bool, running: bool, fired: nat, begun: nat, overtook: nat)

  /** A new shell. */
  function Start(errexit: bool): View {
    View(0, errexit, 0, 0, 0, None, false, true, 0, 0, 0)
  }

  /** While the shell runs, a pending break or continue names one of the enclosing loops, and
      a pending return is inside a function. (Once errexit has stopped the shell, what is
      pending is what it overtook; see `Encodes`.) */
  predicate InBounds(v: View) {
    v.running ==> Bounded(v.pending, v.loopDepth, v.functionDepth)
  }

  predicate Bounded(pending: Option<Control>, loopDepth: nat, functionDepth: nat) {
    match pending
    case None => true
    case Some(BreakOut(n)) => 1 <= n <= loopDepth
    case Some(ContinueOut(n)) => 1 <= n <= loopDepth
    case Some(ReturnWith(_)) => functionDepth >= 1
  }

  /** What every command keeps, whatever it does: the nesting depths, on success the
      suppression flag and the bounds of pending control; and a suppressed context never
      sees errexit fire. */
  predicate Keeps(v: View, r: Status, w: View) {
    KeepsButSuppression(v, r, w) && (r.Ok? ==> w.suppressed == v.suppressed)
  }

  predicate KeepsButSuppression(v: View, r: Status, w: View) {
    && w.loopDepth == v.loopDepth
    && w.functionDepth == v.functionDepth
    && (r.Ok? && InBounds(v) ==> InBounds(w))
    && (v.suppressed ==> w.fired == v.fired)
    && v.begun <= w.begun
  }

  /** Nothing is pending and the shell has not been told to stop. */
  predicate Clean(v: View) {
    v.running && v.pending.None?
  }

  /** Nothing is pending, and errexit has not stopped a jump since `v`. */
  predicate CleanSince(v: View, w: View) {
    Clean(w) && w.overtook == v.overtook
  }

  predicate IsJump(pending: Option<Control>) {
    pending.Some? && !pending.value.ReturnWith?
  }

  function StateOf(v: View): State {
    State(v.pos, v.errexit, v.last, v.begun)
  }

  /** The inherited context of a command started from view `v`. */
  function At(v: View, functions: Functions, tape: Tape): Context {
    Context(v.loopDepth, v.suppressed, v.functionDepth, functions, tape)
  }

  /** The flags that stand for an outcome of a command run from view `v`. */
  predicate Encodes(o: Outcome, v: View, r: Status, w: View) {
    match o
    case Normal(s) => r == Ok(s) && CleanSince(v, w)
    case Jump(target, again, s) =>
      && r == Ok(s) && w.running && w.overtook == v.overtook
      && 1 <= target <= v.loopDepth
      && w.pending == Some(JumpOut(v.loopDepth - target + 1, again))
    case Return(value, s) => r == Ok(s) && w.running && w.overtook == v.overtook && w.pending == Some(ReturnWith(value))
    case Exit(s, overtaken) =>
      && r == Ok(s) && !w.running && w.pending == overtaken
      && (v.suppressed ==> w.pending.None?)
      && w.overtook == v.overtook + (if IsJump(overtaken) then 1 else 0)
    case Error(e) => r == Err(e)
    case Misplaced => true
  }

  /** The step is a misplaced transfer of control, and the shell has begun something after it. */
  predicate Overran(step: Step, w: View) {
    step.outcome.Misplaced? && w.begun > step.state.begun
  }

  /** The step is a misplaced transfer of control that the shell has reached. */
  predicate Reached(step: Step, w: View) {
    step.outcome.Misplaced? && w.begun >= step.state.begun
  }

  /** Started clean, the command ended as the structured step says or, if that step is a
      misplaced transfer of control, ran past it. */
  predicate Refines(step: Step, v: View, r: Status, w: View) {
    Clean(v) ==>
      || Overran(step, w)
      || (!step.outcome.Misplaced? && StateOf(w) == step.state && Encodes(step.outcome, v, r, w))
  }

  /** What an encoded outcome says about the status and the flags. */
  lemma ReadOutcome(o: Outcome, v: View, r: Status, w: View)
    requires Encodes(o, v, r, w) && !o.Misplaced?
    ensures r.Ok? ==> HasStatus(o) && o.status == r.value
    ensures r.Err? ==> o == Error(r.error)
    ensures o.Normal? ==> CleanSince(v, w)
  {
  }

  /** The encoding depends on the start only through its depth, its suppression and the count of
      jumps that errexit stopped. */
  lemma EncodesFrom(o: Outcome, u: View, v: View, r: Status, w: View)
    requires Encodes(o, u, r, w) && u.loopDepth == v.loopDepth && (v.suppressed ==> u.suppressed) && u.overtook == v.overtook
    ensures Encodes(o, v, r, w)
  {
  }

  /** Part-way through an and-or list: `step` is the structured outcome so far, `links` the
      operands still to come, and the flags in `w` encode that outcome. */
  predicate Following(links: seq<Link>, step: Step, ctx: Context, fuel: nat, whole: Step, v: View, r: Status, w: View) {
    Clean(v) ==>
      || Overran(whole, w)
      || (&& RunLinks(links, step, ctx, fuel) == whole
          && StateOf(w) == step.state && Encodes(step.outcome, v, r, w)
          && !step.outcome.Misplaced?)
  }

  /** The operands of a list of several pipelines, before the errexit check. */
  function RunList(node: AndOr, ctx: Context, st: State, fuel: nat): Step {
    RunLinks(node.rest, RunPipeline(node.first, Suppressed(ctx), st, fuel), ctx, fuel)
  }

  lemma FirstRan(node: AndOr, ctx: Context, fuel: nat, v: View, start: View, r: Status, w: View) returns (step: Step)
    requires node.rest != [] && v.suppressed == ctx.suppressed && start == v.(suppressed := true)
    requires Refines(RunPipeline(node.first, Suppressed(ctx), StateOf(v), fuel), start, r, w)
    ensures var whole := RunList(node, ctx, StateOf(v), fuel);
            Following(node.rest, step, ctx, fuel, whole, v, r, w) && (r.Err? ==> Refines(whole, v, r, w))
  {
    hide RunPipeline;
    step := RunPipeline(node.first, Suppressed(ctx), StateOf(v), fuel);
  }

  lemma LinkSkipped(links: seq<Link>, step: Step, ctx: Context, fuel: nat, whole: Step, v: View, r: Status, w: View, x: View)
    requires Following(links, step, ctx, fuel, whole, v, r, w)
    requires links != [] && r.Ok? && !Selects(links[0].op, r.value) && x == w.(suppressed := x.suppressed)
    ensures Following(links[1..], step, ctx, fuel, whole, v, r, x)
  {
    hide RunPipeline;
  }

  lemma LinkRan(links: seq<Link>, step: Step, ctx: Context, fuel: nat, whole: Step, v: View, r: Status, w: View,
                start: View, s: Status, x: View) returns (next: Step)
    requires Following(links, step, ctx, fuel, whole, v, r, w)
    requires links != [] && r.Ok? && Selects(links[0].op, r.value)
    requires start.suppressed == (|links| > 1 || links[0].pipeline.negated || ctx.suppressed)
    requires start == w.(suppressed := start.suppressed)
    requires ctx.suppressed == v.suppressed && start.loopDepth == v.loopDepth
    requires Refines(RunPipeline(links[0].pipeline, ctx.(suppressed := start.suppressed), StateOf(start), fuel), start, s, x)
    requires x.begun > w.begun
    ensures Following(links[1..], next, ctx, fuel, whole, v, s, x)
    ensures s.Err? ==> Refines(whole, v, s, x)
  {
    hide RunPipeline;
    next := step;
    if Clean(v) && !Overran(whole, w) && !Abrupt(step.outcome) {
      var p := links[0].pipeline;
      PipelineSuppressesItself(p, SuppressedIf(ctx, |links| > 1), StateOf(start), fuel);
      next := RunPipeline(p, ctx.(suppressed := start.suppressed), StateOf(start), fuel);
      assert SuppressedIf(SuppressedIf(ctx, |links| > 1), p.negated) == ctx.(suppressed := start.suppressed);
    }
  }

  lemma LinksFail(node: AndOr, ctx: Context, fuel: nat, v: View, r: Status, w: View)
    requires node.rest != [] && r.Err?
    requires Refines(RunList(node, ctx, StateOf(v), fuel), v, r, w)
    ensures Refines(RunAndOr(node, ctx, StateOf(v), fuel), v, r, w)
  {
    hide RunPipeline, RunLinks;
  }

  lemma LinksEnd(node: AndOr, step: Step, ctx: Context, fuel: nat, v: View, r: Status, w: View, x: View)
    requires node.rest != [] && r.Ok? && v.suppressed == ctx.suppressed && v.loopDepth == ctx.depth
    requires Following([], step, ctx, fuel, RunList(node, ctx, StateOf(v), fuel), v, r, w)
    requires x.pos == w.pos && x.errexit == w.errexit && x.pending == w.pending && x.begun == w.begun
    requires if !LastPipeline(node).negated && r.value != 0 && w.errexit && !ctx.suppressed
             then !x.running && x.last == r.value && x.overtook == Stopped(w, r.value).overtook
             else x.running == w.running && x.last == w.last && x.overtook == w.overtook
    ensures Refines(RunAndOr(node, ctx, StateOf(v), fuel), v, r, x)
  {
    hide RunPipeline;
  }

  /** A negated pipeline suppresses errexit whether or not its list already has. */
  lemma PipelineSuppressesItself(p: Pipeline, ctx: Context, st: State, fuel: nat)
    ensures RunPipeline(p, ctx, st, fuel) == RunPipeline(p, SuppressedIf(ctx, p.negated), st, fuel)
  {
  }

  /** What a loop does about pending control. */
  datatype LoopSignal = Proceed | NextTurn | LeaveLoop

  function SignalOf(pending: Option<Control>): LoopSignal {
    match pending
    case None => Proceed
    case Some(ContinueOut(levels)) => if levels > 1 then LeaveLoop else NextTurn
    case Some(_) => LeaveLoop
  }

  /** Pending control after one loop has taken its share of it. */
  function Counted(pending: Option<Control>): Option<Control> {
    match pending
    case Some(BreakOut(levels)) => if levels > 1 then Some(BreakOut(levels - 1)) else None
    case Some(ContinueOut(levels)) => if levels > 1 then Some(ContinueOut(levels - 1)) else None
    case _ => pending
  }

  function SaturatingSub(a: nat, b: nat): nat {
    if a >= b then a - b else 0
  }

  /** What a function call makes of the flags its body leaves. */
  function CallStatus(r: Status, w: View): Status {
    if r.Ok? && w.pending.Some? && w.pending.value.ReturnWith? then Ok(w.pending.value.value) else r
  }

  function CallView(r: Status, w: View): View {
    w.(functionDepth := SaturatingSub(w.functionDepth, 1),
       pending := if r.Ok? && w.pending.Some? && w.pending.value.ReturnWith? then None else w.pending)
  }

  lemma CallEnds(name: string, v: View, functions: Functions, tape: Tape, fuel: nat, start: View, r: Status, w: View)
    requires name in functions && fuel > 0 && start == v.(functionDepth := v.functionDepth + 1)
    requires Keeps(start, r, w)
    requires Refines(RunCommand(functions[name], At(start, functions, tape), StateOf(start), fuel - 1), start, r, w)
    ensures Keeps(v, CallStatus(r, w), CallView(r, w))
    ensures Refines(RunCommand(Call(name), At(v, functions, tape), StateOf(v), fuel), v, CallStatus(r, w), CallView(r, w))
  {
    var ctx := At(v, functions, tape);
    assert At(start, functions, tape) == ctx.(functionDepth := ctx.functionDepth + 1);
    assert RunCommand(Call(name), ctx, StateOf(v), fuel)
        == var step := RunCommand(functions[name], At(start, functions, tape), StateOf(start), fuel - 1);
           Step(Returned(step.outcome), step.state);
    hide RunCommand;
  }

  /** The view seen from outside the innermost loop. */
  function Outside(v: View): View {
    v.(loopDepth := SaturatingSub(v.loopDepth, 1))
  }

  /** The shell after a loop has dealt with the pending control of view `w`. */
  function Settled(w: View): View {
    w.(pending := Counted(w.pending))
  }

  /** The end of a body, seen by the flags and by the structured semantics. */
  lemma TurnEnds(o: Outcome, v: View, s: int, w: View)
    requires v.loopDepth >= 1 && w.loopDepth == v.loopDepth
    requires Encodes(o, v, Ok(s), w)
    ensures var turn := AfterBody(o, v.loopDepth);
            if o.Misplaced? then turn == Leave(o)
            else if !w.running then turn == Leave(o) && Encodes(o, Outside(v), Ok(s), Outside(w))
            else if SignalOf(w.pending).LeaveLoop? then
              turn.Leave? && Encodes(turn.outcome, Outside(v), Ok(s), Outside(Settled(w)))
            else turn == Again(s) && CleanSince(v, Settled(w))
  {
  }

  /** One turn of a loop begun from `v` inside it, whose structured meaning is `whole`: either
      the loop ended as `whole` says, or the turns still to come mean `whole`. */
  predicate Turned(whole: Step, until: bool, condition: Program, body: Program, v: View, functions: Functions,
                   tape: Tape, budget: nat, again: bool, r: Status, w: View)
  {
    if !again then Refines(whole, Outside(v), r, Outside(w))
    else
      r.Ok? && (Clean(v) ==>
        || Overran(whole, w)
        || (CleanSince(v, w) && RunLoop(until, condition, body, r.value, At(Outside(v), functions, tape), StateOf(w), budget) == whole))
  }

  /** A loop body begun from `v` inside the loop: the flags in `w` and the decision to go on
      agree with the structured outcome `b`. */
  predicate BodyRan(b: Step, v: View, again: bool, r: Status, w: View) {
    Clean(v) ==>
      || Overran(b, w)
      || (&& !b.outcome.Misplaced?
          && StateOf(w) == b.state
          && match AfterBody(b.outcome, v.loopDepth)
             case Leave(o) => !again && Encodes(o, Outside(v), r, Outside(w))
             case Again(s) => again && r == Ok(s) && CleanSince(v, w))
  }

  /** The second half of a turn: the body, and then the next turn or the end. */
  function BodyTurn(until: bool, condition: Program, body: Program, ctx: Context, st: State, budget: nat): Step {
    var b := RunProgram(body, Inside(ctx), st, budget);
    match AfterBody(b.outcome, ctx.depth + 1)
    case Leave(o) => Step(o, b.state)
    case Again(s) => RunLoop(until, condition, body, s, ctx, b.state, budget)
  }

  /** A turn whose condition came to `c`. */
  function TurnAfter(c: Step, until: bool, condition: Program, body: Program, last: int, ctx: Context, budget: nat): Step {
    match c.outcome
    case Error(_) => c
    case Misplaced => c
    case Return(value, _) => Step(Return(value, last), c.state)
    case Exit(s, _) => if ShouldRun(until, s) then Step(Misplaced, c.state) else Step(WithStatus(c.outcome, last), c.state)
    case Jump(target, again, _) =>
      if target < ctx.depth + 1 then Step(Jump(target, again, last), c.state)
      else if again then RunLoop(until, condition, body, last, ctx, c.state, budget)
      else Step(Normal(last), c.state)
    case Normal(s) =>
      if !ShouldRun(until, s) then Step(Normal(last), c.state)
      else BodyTurn(until, condition, body, ctx, c.state, budget)
  }

  lemma LoopUnfolds(until: bool, condition: Program, body: Program, last: int, ctx: Context, st: State, budget: nat)
    ensures RunLoop(until, condition, body, last, ctx, st, budget + 1)
         == TurnAfter(RunProgram(condition, Suppressed(Inside(ctx)), st, budget), until, condition, body, last, ctx, budget)
  {
    hide RunProgram;
  }

  /** What the condition of a turn settles, when started from `v` inside the loop. */
  lemma {:induction false} ConditionTurn(until: bool, condition: Program, body: Program, last: int, v: View, functions: Functions,
                      tape: Tape, budget: nat, r: Status, w: View)
    requires v.loopDepth >= 1 && w.loopDepth == v.loopDepth
    requires Refines(RunProgram(condition, Suppressed(At(v, functions, tape)), StateOf(v), budget),
                     v.(suppressed := true), r, w)
    ensures (var whole := RunLoop(until, condition, body, last, At(Outside(v), functions, tape), StateOf(v), budget + 1);
             if r.Err? then Turned(whole, until, condition, body, v, functions, tape, budget, false, r, w)
             else if !SignalOf(w.pending).Proceed? || !ShouldRun(until, r.value) then
               Turned(whole, until, condition, body, v, functions, tape, budget, SignalOf(w.pending).NextTurn?, Ok(last), Settled(w))
             else
               Clean(v) ==>
                 || Reached(whole, w)
                 || (CleanSince(v, w) && whole == BodyTurn(until, condition, body, At(Outside(v), functions, tape), StateOf(w), budget)))
  {
    var ctx := At(Outside(v), functions, tape);
    assert Inside(ctx) == At(v, functions, tape);
    LoopUnfolds(until, condition, body, last, ctx, StateOf(v), budget);
    hide RunProgram, RunLoop, BodyTurn;
    var c := RunProgram(condition, Suppressed(At(v, functions, tape)), StateOf(v), budget);
    if r.Ok? && Clean(v) && !c.outcome.Misplaced? {
      ConditionEnds(c.outcome, v.(suppressed := true), r.value, w, last);
    }
  }

  lemma BodyTurned(whole: Step, until: bool, condition: Program, body: Program, v: View, functions: Functions,
                   tape: Tape, budget: nat, w: View, again: bool, r: Status, x: View)
    requires v.loopDepth >= 1 && w.loopDepth == v.loopDepth && w.suppressed == v.suppressed
    requires w.functionDepth == v.functionDepth && (again ==> r.Ok?)
    requires Clean(v) ==>
               || Reached(whole, w)
               || (CleanSince(v, w) && whole == BodyTurn(until, condition, body, At(Outside(v), functions, tape), StateOf(w), budget))
    requires x.begun > w.begun
    requires BodyRan(RunProgram(body, At(w, functions, tape), StateOf(w), budget), w, again, r, x)
    ensures Turned(whole, until, condition, body, v, functions, tape, budget, again, r, x)
  {
    hide RunProgram, RunLoop;
    assert At(w, functions, tape) == Inside(At(Outside(v), functions, tape));
  }

  lemma OutOfFuelStep(until: bool, condition: Program, body: Program, last: int, ctx: Context, st: State)
    ensures RunLoop(until, condition, body, last, ctx, st, 0) == Step(Error(OutOfFuel), st)
  {
  }

  lemma PlainOutcomes(v: View, s: int, e: ShellError, w: View)
    ensures Encodes(Error(e), v, Err(e), w)
    ensures CleanSince(v, w) ==> Encodes(Normal(s), v, Ok(s), w)
  {
  }

  /** The end of a condition: a jump or return leaves the loop with the status of the latest
      body, `last`; the flags say the same. */
  lemma ConditionEnds(o: Outcome, v: View, s: int, w: View, last: int)
    requires v.loopDepth >= 1 && w.loopDepth == v.loopDepth && v.suppressed
    requires Encodes(o, v, Ok(s), w) && !o.Misplaced?
    ensures HasStatus(o) && o.status == s
    ensures SignalOf(w.pending).Proceed? <==> o.Normal? || o.Exit?
    ensures o.Normal? ==> CleanSince(v, w)
    ensures o.Exit? ==> !w.running && w.pending.None?
    ensures SignalOf(w.pending).NextTurn? <==> o.Jump? && o.target == v.loopDepth && o.again
    ensures SignalOf(w.pending).NextTurn? ==> CleanSince(v, Settled(w))
    ensures SignalOf(w.pending).LeaveLoop? ==>
              Encodes(if o.Jump? && o.target == v.loopDepth then Normal(last) else WithStatus(o, last),
                      Outside(v), Ok(last), Outside(Settled(w)))
  {
  }

  /** What is kept inside a loop is kept outside it, once the loop has taken its share of
      the pending control or when there is nothing to take. */
  lemma KeepsOutside(v: View, s: int, w: View)
    requires v.loopDepth >= 1 && Keeps(v, Ok(s), w)
    ensures Keeps(v, Ok(s), Settled(w))
    ensures Keeps(Outside(v), Ok(s), Outside(Settled(w)))
    ensures !w.running ==> Keeps(Outside(v), Ok(s), Outside(w))
  {
  }

  lemma RedirectedUnfolds(command: Command, v: View, functions: Functions, tape: Tape, fuel: nat)
    ensures var start := v.(pos := v.pos + 1);
            RunCommand(Redirected(command), At(v, functions, tape), StateOf(v), fuel)
            == if tape(v.pos).Fail? then Step(Error(Failed(tape(v.pos).status)), StateOf(start))
               else if tape(v.pos).Refused? then Step(Normal(tape(v.pos).status), StateOf(start))
               else RunCommand(command, At(start, functions, tape), StateOf(start), fuel)
  {
  }

  // ----- Conditionals -----

  /** A condition, run with errexit suppressed. */
  lemma ConditionRan(p: Program, v: View, functions: Functions, tape: Tape, fuel: nat, start: View, r: Status, w: View)
    requires start == v.(suppressed := true)
    requires Keeps(start, r, w) && Refines(RunProgram(p, At(start, functions, tape), StateOf(start), fuel), start, r, w)
    ensures var x := if r.Ok? then w.(suppressed := v.suppressed) else w;
            Keeps(v, r, x) && Refines(RunProgram(p, Suppressed(At(v, functions, tape)), StateOf(v), fuel), start, r, x)
  {
    hide RunProgram, Bounded;
  }

  lemma ConditionMeans(step: Step, v: View, r: Status, w: View)
    requires Keeps(v, r, w) && Refines(step, v.(suppressed := true), r, w)
    ensures InChain(step, v, r, w)
  {
    if Clean(v) && !step.outcome.Misplaced? {
      EncodesFrom(step.outcome, v.(suppressed := true), v, r, w);
    }
  }

  /** After a condition that means `step`, the flags in `w` mean `chain` so far. */
  predicate InChain(chain: Step, v: View, r: Status, w: View) {
    Keeps(v, r, w) && Refines(chain, v, r, w)
  }

  /** A branch run after a condition: unless that condition transferred control, it decides. */
  lemma BranchRan(p: Program, step: Step, whole: Step, v: View, functions: Functions, tape: Tape, fuel: nat,
                  s: Status, before: View, r: Status, w: View)
    requires s.Ok? && InChain(step, v, s, before)
    requires Keeps(before, r, w) && w.begun > before.begun
    requires Refines(RunProgram(p, At(before, functions, tape), StateOf(before), fuel), before, r, w)
    requires Clean(v) ==>
               whole == (if Overran(step, before) then step
                         else if Abrupt(step.outcome) then Step(Misplaced, step.state)
                         else RunProgram(p, At(v, functions, tape), step.state, fuel))
    ensures InChain(whole, v, r, w)
  {
    hide RunProgram, Bounded;
    assert At(before, functions, tape) == At(v, functions, tape);
    if Clean(v) && !Overran(step, before) {
      ReadOutcome(step.outcome, v, s, before);
      var next := RunProgram(p, At(v, functions, tape), step.state, fuel);
      if step.outcome.Normal? && !next.outcome.Misplaced? {
        EncodesFrom(next.outcome, before, v, r, w);
      }
    }
  }

  /** The chain of branches that starts with the outcome of a condition. */
  function ChainOf(elifs: seq<Branch>, step: Step, ctx: Context, fuel: nat): Chain {
    if HasStatus(step.outcome) then RunElifs(elifs, step, ctx, fuel) else Taken(step)
  }

  /** What follows a condition: nothing after an error, a misplaced transfer, or a run. */
  function Onward(step: Step, run: Step): Step {
    if !HasStatus(step.outcome) then step
    else if Abrupt(step.outcome) then Step(Misplaced, step.state)
    else run
  }

  /** One link of the chain, when the status so far is not zero. */
  lemma ChainUnfolds(elifs: seq<Branch>, step: Step, ctx: Context, fuel: nat, next: Step)
    requires elifs != [] && next == Onward(step, RunProgram(elifs[0].condition, Suppressed(ctx), step.state, fuel))
    ensures ChainOf(elifs, step, ctx, fuel)
         == (if !HasStatus(next.outcome) then Taken(next)
             else if next.outcome.status != 0 then ChainOf(elifs[1..], next, ctx, fuel)
             else Taken(Onward(next, RunProgram(elifs[0].body, ctx, next.state, fuel))))
    ensures !HasStatus(next.outcome) ==> ChainOf(elifs[1..], next, ctx, fuel) == Taken(next)
  {
    hide RunProgram;
  }

  /** A further condition, run from `before`; `x` is the shell after it. */
  lemma ElifRan(p: Program, step: Step, v: View, functions: Functions, tape: Tape, fuel: nat,
                s: Status, before: View, r: Status, x: View) returns (next: Step)
    requires s.Ok? && InChain(step, v, s, before) && x.begun > before.begun
    requires Keeps(before, r, x)
    requires Refines(RunProgram(p, Suppressed(At(before, functions, tape)), StateOf(before), fuel), before.(suppressed := true), r, x)
    ensures next == Onward(step, RunProgram(p, Suppressed(At(v, functions, tape)), step.state, fuel))
    ensures InChain(next, v, r, x)
  {
    hide RunProgram, Bounded;
    assert At(before, functions, tape) == At(v, functions, tape);
    next := Onward(step, RunProgram(p, Suppressed(At(v, functions, tape)), step.state, fuel));
    if Clean(v) && !Overran(step, before) {
      ReadOutcome(step.outcome, v, s, before);
      if step.outcome.Normal? && !next.outcome.Misplaced? {
        EncodesFrom(next.outcome, before.(suppressed := true), v, r, x);
      }
    }
  }

  /** `if`: its condition, then the branch it chooses. */
  lemma IfUnfolds(c: Command, ctx: Context, st: State, fuel: nat)
    requires c.If?
    ensures (var step := RunProgram(c.condition, Suppressed(ctx), st, fuel);
             var chain := ChainOf(c.elifs, step, ctx, fuel);
             RunCommand(c, ctx, st, fuel)
             == if HasStatus(step.outcome) && step.outcome.status == 0 then
                  Onward(step, RunProgram(c.thenBranch, ctx, step.state, fuel))
                else if chain.Taken? then chain.step
                else if c.otherwise.None? then Step(WithStatus(chain.step.outcome, 0), chain.step.state)
                else Onward(chain.step, RunProgram(c.otherwise.value, ctx, chain.step.state, fuel)))
  {
    hide RunProgram;
  }

  lemma ChainStatus(step: Step, v: View, r: Status, w: View)
    requires InChain(step, v, r, w) && Clean(v)
    ensures Overran(step, w) || (HasStatus(step.outcome) == r.Ok? && (r.Ok? ==> step.outcome.status == r.value))
  {
  }

  /** What the chain of elif branches leaves: `taken` when one of them ran. */
  predicate ChainEnded(chain: Chain, v: View, r: Status, taken: bool, w: View) {
    && InChain(chain.step, v, r, w)
    && (Clean(v) && !Overran(chain.step, w) ==> chain.Taken? == (r.Err? || taken))
  }

  lemma ChainPasses(chain: Chain, step: Step, v: View, r: Status, w: View, ctx: Context, fuel: nat)
    requires InChain(step, v, r, w) && r.Ok? && (Clean(v) ==> chain == ChainOf([], step, ctx, fuel))
    ensures ChainEnded(chain, v, r, false, w)
  {
  }

  lemma ChainFails(chain: Chain, step: Step, v: View, r: Status, w: View)
    requires InChain(step, v, r, w) && r.Err? && (Clean(v) ==> chain == Taken(step))
    ensures ChainEnded(chain, v, r, false, w)
  {
  }

  // ----- Steps of the loops over items and arms, and of single commands -----

  lemma PipelineRan(p: Pipeline, v: View, functions: Functions, tape: Tape, fuel: nat, start: View, r: Status, w: View)
    requires start == v.(begun := v.begun + 1, suppressed := v.suppressed || p.negated)
    requires Keeps(start, r, w)
    requires Refines(RunCommand(p.command, At(start, functions, tape), StateOf(start), fuel), start, r, w)
    ensures var x := if r.Ok? then w.(suppressed := v.suppressed) else w;
            var s := if r.Ok? && p.negated then Ok(if r.value == 0 then 1 else 0) else r;
            && Keeps(v, s, x) && x.begun > v.begun
            && Refines(RunPipeline(p, At(v, functions, tape), StateOf(v), fuel), v, s, x)
  {
    hide RunCommand, Bounded;
    assert At(start, functions, tape) == SuppressedIf(At(v, functions, tape), p.negated);
    var step := RunCommand(p.command, At(start, functions, tape), StateOf(start), fuel);
    if Clean(start) && !step.outcome.Misplaced? {
      ReadOutcome(step.outcome, start, r, w);
      EncodesFrom(step.outcome, start, v, r, w);
    }
  }

  /** One operand of a list, run from `start`, keeps what the list must keep. */
  lemma OperandKeeps(v: View, r: Status, before: View, start: View, s: Status, x: View)
    requires KeepsButSuppression(v, r, before) && r.Ok?
    requires start == before.(suppressed := start.suppressed) && (v.suppressed ==> start.suppressed)
    requires Keeps(start, s, x)
    ensures KeepsButSuppression(v, s, x)
    ensures s.Ok? ==> x.suppressed == start.suppressed
    ensures s.Err? ==> Keeps(v, s, x)
    ensures start.loopDepth == v.loopDepth && start.functionDepth == v.functionDepth && start.begun <= x.begun
  {
  }

  /** The shell after errexit stopped it. A jump is overtaken if the shell was still running. */
  function Stopped(w: View, status: int): View {
    w.(running := false, last := status, fired := w.fired + 1,
       overtook := w.overtook + if w.running && IsJump(w.pending) then 1 else 0)
  }

  /** Errexit, when it may fire, stops the shell in `w`; nothing else changes. */
  predicate ErrexitChecked(negated: bool, status: int, w: View, x: View) {
    x == if !negated && status != 0 && w.errexit && !w.suppressed then Stopped(w, status) else w
  }

  lemma CheckKeeps(v: View, r: Status, w: View, negated: bool, x: View)
    requires KeepsButSuppression(v, r, w) && r.Ok? && w.suppressed == v.suppressed
    requires ErrexitChecked(negated, r.value, w, x)
    ensures Keeps(v, r, x)
  {
  }

  lemma RestoredKeeps(v: View, r: Status, w: View, x: View)
    requires KeepsButSuppression(v, r, w) && x == w.(suppressed := x.suppressed)
    ensures KeepsButSuppression(v, r, x)
  {
  }

  /** A list of one pipeline. */
  lemma SingleRan(node: AndOr, v: View, functions: Functions, tape: Tape, fuel: nat, start: View, r: Status, w: View)
    requires node.rest == [] && start == v.(suppressed := v.suppressed || node.first.negated)
    requires Keeps(start, r, w)
    requires Refines(RunPipeline(node.first, At(start, functions, tape), StateOf(start), fuel), start, r, w)
    ensures KeepsButSuppression(v, r, w) && (r.Err? ==> Keeps(v, r, w))
    ensures Refines(RunPipeline(node.first, At(v, functions, tape), StateOf(v), fuel), v, r, w)
  {
    hide RunPipeline, Bounded;
    var ctx := At(v, functions, tape);
    PipelineSuppressesItself(node.first, ctx, StateOf(v), fuel);
    assert At(start, functions, tape) == SuppressedIf(ctx, node.first.negated);
    var step := RunPipeline(node.first, ctx, StateOf(v), fuel);
    if Clean(v) && !step.outcome.Misplaced? {
      EncodesFrom(step.outcome, start, v, r, w);
    }
  }

  lemma SingleEnds(node: AndOr, v: View, functions: Functions, tape: Tape, fuel: nat, r: Status, w: View, x: View)
    requires node.rest == []
    requires Refines(RunPipeline(node.first, At(v, functions, tape), StateOf(v), fuel), v, r, w)
    requires if r.Err? then x == w else ErrexitChecked(node.first.negated, r.value, w.(suppressed := v.suppressed), x)
    ensures Refines(RunAndOr(node, At(v, functions, tape), StateOf(v), fuel), v, r, x)
  {
    hide RunPipeline, Bounded;
    var step := RunPipeline(node.first, At(v, functions, tape), StateOf(v), fuel);
    if Clean(v) && !step.outcome.Misplaced? {
      ReadOutcome(step.outcome, v, r, w);
    }
  }

  lemma BegunGrows(v: View, r: Status, w: View)
    requires Keeps(v, r, w)
    ensures v.begun <= w.begun
  {
  }

  /** The items still to run from view `w` mean `whole`, unless the shell has overrun it. */
  predicate ItemsLeft(items: seq<AndOr>, status: int, whole: Step, v: View, functions: Functions, tape: Tape, fuel: nat, w: View) {
    && Keeps(v, Ok(status), w)
    && (Clean(v) ==>
          || Overran(whole, w)
          || (CleanSince(v, w) && RunItems(items, status, At(v, functions, tape), StateOf(w), fuel) == whole))
  }

  lemma NoItemsLeft(status: int, whole: Step, v: View, functions: Functions, tape: Tape, fuel: nat, w: View)
    requires ItemsLeft([], status, whole, v, functions, tape, fuel, w)
    ensures Keeps(v, Ok(status), w) && Refines(whole, v, Ok(status), w)
  {
  }

  /** One item: it ends the program, or the others are left. */
  lemma ItemRan(items: seq<AndOr>, status: int, whole: Step, v: View, functions: Functions, tape: Tape, fuel: nat,
                before: View, r: Status, w: View, x: View)
    requires items != [] && ItemsLeft(items, status, whole, v, functions, tape, fuel, before)
    requires Keeps(before, r, w)
    requires Refines(RunAndOr(items[0], At(before, functions, tape), StateOf(before), fuel), before, r, w)
    requires x == if r.Ok? then w.(last := r.value) else w
    ensures Keeps(v, r, x)
    ensures r.Err? || !x.running || x.pending.Some? ==> Refines(whole, v, r, x)
    ensures r.Ok? && x.running && x.pending.None? ==>
              ItemsLeft(items[1..], r.value, whole, v, functions, tape, fuel, x)
  {
    hide RunAndOr, Bounded;
    assert At(before, functions, tape) == At(v, functions, tape);
    var step := RunAndOr(items[0], At(v, functions, tape), StateOf(before), fuel);
    if CleanSince(v, before) && !step.outcome.Misplaced? {
      EncodesFrom(step.outcome, before, v, r, w);
    }
  }

  /** The arms still to look at from view `w` mean `whole`, unless the shell has overrun it. */
  predicate ArmsLeft(arms: seq<Arm>, matched: bool, whole: Step, v: View, functions: Functions, tape: Tape, fuel: nat, w: View) {
    && Keeps(v, Ok(0), w)
    && (Clean(v) ==>
          || Overran(whole, w)
          || (matched && arms != [] && Reached(whole, w))
          || (CleanSince(v, w) && RunArms(arms, matched, At(v, functions, tape), StateOf(w), fuel) == whole))
  }

  lemma NoArmsLeft(matched: bool, whole: Step, v: View, functions: Functions, tape: Tape, fuel: nat, w: View)
    requires ArmsLeft([], matched, whole, v, functions, tape, fuel, w)
    ensures Keeps(v, Ok(0), w) && Refines(whole, v, Ok(0), w)
  {
  }

  /** The patterns of an arm are matched, or expanding one of them fails. */
  lemma ArmMatched(arms: seq<Arm>, whole: Step, v: View, functions: Functions, tape: Tape, fuel: nat, before: View, w: View)
    requires arms != [] && ArmsLeft(arms, false, whole, v, functions, tape, fuel, before)
    requires w == before.(pos := before.pos + 1)
    ensures var e := tape(before.pos);
            && Keeps(v, Ok(0), w)
            && Keeps(v, Err(Failed(if e.Fail? then e.status else 0)), w)
            && (e.Fail? ==> Refines(whole, v, Err(Failed(e.status)), w))
            && (!e.Fail? && !(e.Match? && e.hit) ==> ArmsLeft(arms[1..], false, whole, v, functions, tape, fuel, w))
            && (e.Match? && e.hit ==> ArmsLeft(arms, true, whole, v, functions, tape, fuel, w))
  {
    hide RunProgram, Bounded;
  }

  /** The body of a matched arm: it ends the case, or the arm falls through into the next. */
  lemma ArmRan(arms: seq<Arm>, whole: Step, v: View, functions: Functions, tape: Tape, fuel: nat,
               before: View, r: Status, w: View)
    requires arms != [] && ArmsLeft(arms, true, whole, v, functions, tape, fuel, before)
    requires Keeps(before, r, w)
    requires Refines(RunProgram(arms[0].body, At(before, functions, tape), StateOf(before), fuel), before, r, w)
    requires w.begun > before.begun
    ensures Keeps(v, r, w)
    ensures r.Err? || !arms[0].fallthrough || |arms| == 1 ==> Refines(whole, v, r, w)
    ensures r.Ok? && arms[0].fallthrough && |arms| > 1 ==>
              ArmsLeft(arms[1..], true, whole, v, functions, tape, fuel, w)
  {
    hide RunProgram, Bounded;
    assert At(before, functions, tape) == At(v, functions, tape);
    var step := RunProgram(arms[0].body, At(v, functions, tape), StateOf(before), fuel);
    if CleanSince(v, before) && !step.outcome.Misplaced? {
      ReadOutcome(step.outcome, before, r, w);
      EncodesFrom(step.outcome, before, v, r, w);
    }
  }

  class Shell {
    const tape: Tape
    const functions: Functions
    var pos: nat
    var errexit: bool
    var lastStatus: int
    var loopDepth: nat
    var functionDepth: nat
    var pending: Option<Control>
    var errexitSuppressed: bool
    var running: bool
    ghost var errexitFired: nat
    ghost var begun: nat
    ghost var overtook: nat

    constructor (tape: Tape, functions: Functions, errexit: bool)
      ensures this.tape == tape && this.functions == functions
      ensures Now() == Start(errexit)
    {
      this.tape, this.functions := tape, functions;
      pos, this.errexit, lastStatus, loopDepth, functionDepth := 0, errexit, 0, 0, 0;
      pending, errexitSuppressed, running, errexitFired, begun, overtook := None, false, true, 0, 0, 0;
    }

    ghost function Now(): View
      reads this
    {
      View(pos, errexit, lastStatus, loopDepth, functionDepth, pending, errexitSuppressed, running, errexitFired, begun, overtook)
    }

    method Next() returns (e: Event)
      modifies this`pos
      ensures pos == old(pos) + 1 && e == tape(old(pos))
    {
      e := tape(pos);
      pos := pos + 1;
    }

    // ----- Lists -----

    method ExecuteProgram(p: Program, fuel: nat) returns (r: Status)
      modifies this
      ensures Keeps(old(Now()), r, Now())
      ensures Refines(RunProgram(p, At(old(Now()), functions, tape), StateOf(old(Now())), fuel), old(Now()), r, Now())
      ensures begun > old(begun)
      decreases fuel, p, 1
    {
      ghost var v := Now();
      ghost var whole := RunProgram(p, At(v, functions, tape), StateOf(v), fuel);
      begun := begun + 1;
      assert p.items[0..] == p.items;
      assert ItemsLeft(p.items[0..], 0, whole, v, functions, tape, fuel, Now());
      hide ItemsLeft, Keeps, Refines, RunAndOr, RunItems, RunProgram;
      var status := 0;
      for i := 0 to |p.items|
        invariant ItemsLeft(p.items[i..], status, whole, v, functions, tape, fuel, Now()) && begun > v.begun
      {
        ghost var before := Now();
        assert p.items[i..][0] == p.items[i] && p.items[i..][1..] == p.items[i + 1..];
        assert (p decreases to p.items) && (p.items decreases to p.items[i]);
        r := ExecuteAndOr(p.items[i], fuel);
        ghost var after := Now();
        BegunGrows(before, r, after);
        if r.Ok? {
          lastStatus := r.value;
        }
        ItemRan(p.items[i..], status, whole, v, functions, tape, fuel, before, r, after, Now());
        if r.Err? {
          return;
        }
        status := r.value;
        if !running || pending.Some? {
          return;
        }
      }
      assert p.items[|p.items|..] == [];
      NoItemsLeft(status, whole, v, functions, tape, fuel, Now());
      return Ok(status);
    }

    method CheckErrexit(status: int)
      modifies this`running, this`lastStatus, this`errexitFired, this`overtook
      ensures Now() == if status != 0 && errexit && !errexitSuppressed then Stopped(old(Now()), status) else old(Now())
    {
      if status != 0 && errexit && !errexitSuppressed {
        overtook := overtook + if running && IsJump(pending) then 1 else 0;
        running := false;
        lastStatus := status;
        errexitFired := errexitFired + 1;
      }
    }

    method ExecuteAndOr(node: AndOr, fuel: nat) returns (r: Status)
      modifies this
      ensures Keeps(old(Now()), r, Now())
      ensures Refines(RunAndOr(node, At(old(Now()), functions, tape), StateOf(old(Now())), fuel), old(Now()), r, Now())
      decreases fuel, node, 1
    {
      hide RunPipeline, RunLinks, RunList, RunAndOr, Keeps, KeepsButSuppression, Following, Refines, Encodes;
      ghost var v := Now();
      var saved := errexitSuppressed;
      ghost var done;
      if node.rest == [] {
        if node.first.negated {
          errexitSuppressed := true;
        }
        ghost var start := Now();
        r := ExecutePipeline(node.first, fuel);
        done := Now();
        SingleRan(node, v, functions, tape, fuel, start, r, done);
        if r.Err? {
          SingleEnds(node, v, functions, tape, fuel, r, done, done);
          return;
        }
        errexitSuppressed := saved;
        ghost var restored := Now();
        if !node.first.negated {
          CheckErrexit(r.value);
        }
        RestoredKeeps(v, r, done, restored);
        CheckKeeps(v, r, restored, node.first.negated, Now());
        SingleEnds(node, v, functions, tape, fuel, r, done, Now());
        return;
      }
      ghost var ctx := At(v, functions, tape);
      ghost var step;
      r, step := ExecuteOperands(node, fuel);
      done := Now();
      if r.Err? {
        LinksFail(node, ctx, fuel, v, r, done);
        return;
      }
      errexitSuppressed := saved;
      ghost var restored := Now();
      var lastPipeline := node.rest[|node.rest| - 1].pipeline;
      if !lastPipeline.negated {
        CheckErrexit(r.value);
      }
      RestoredKeeps(v, r, done, restored);
      CheckKeeps(v, r, restored, lastPipeline.negated, Now());
      LinksEnd(node, step, ctx, fuel, v, r, done, Now());
    }

    /** The operands of a list of several pipelines, up to the errexit check. */
    method ExecuteOperands(node: AndOr, fuel: nat) returns (r: Status, ghost step: Step)
      requires node.rest != []
      modifies this
      ensures KeepsButSuppression(old(Now()), r, Now()) && (r.Err? ==> Keeps(old(Now()), r, Now()))
      ensures var whole := RunList(node, At(old(Now()), functions, tape), StateOf(old(Now())), fuel);
              if r.Err? then Refines(whole, old(Now()), r, Now())
              else Following([], step, At(old(Now()), functions, tape), fuel, whole, old(Now()), r, Now())
      decreases fuel, node, 0
    {
      hide RunPipeline, RunLinks, RunList, Keeps, Selects, Encodes, Following, Refines;
      ghost var v := Now();
      ghost var ctx := At(v, functions, tape);
      var saved := errexitSuppressed;
      errexitSuppressed := true;
      ghost var whole := RunList(node, ctx, StateOf(v), fuel);
      ghost var start := Now();
      r := ExecutePipeline(node.first, fuel);
      step := FirstRan(node, ctx, fuel, v, start, r, Now());
      OperandKeeps(v, Ok(0), v, start, r, Now());
      if r.Err? {
        return;
      }
      assert node.rest[0..] == node.rest;
      for i := 0 to |node.rest|
        invariant r.Ok?
        invariant i < |node.rest| ==> errexitSuppressed
        invariant KeepsButSuppression(v, r, Now())
        invariant Following(node.rest[i..], step, ctx, fuel, whole, v, r, Now())
      {
        ghost var links := node.rest[i..];
        assert links[0] == node.rest[i] && links[1..] == node.rest[i + 1..];
        assert node.rest decreases to node.rest[i];
        r, step := ExecuteOperand(node.rest[i], i == |node.rest| - 1, saved, r.value, fuel, links, v, step, whole);
        if r.Err? {
          return;
        }
      }
      assert node.rest[|node.rest|..] == [];
    }

    /** One operand after the first: run or not by the status so far, and suppressed unless it
        is the last. */
    method ExecuteOperand(link: Link, isLast: bool, saved: bool, status: int, fuel: nat,
                          ghost links: seq<Link>, ghost v: View, ghost before: Step, ghost whole: Step)
      returns (r: Status, ghost step: Step)
      requires links != [] && links[0] == link && isLast == (|links| == 1)
      requires saved == v.suppressed && errexitSuppressed
      requires KeepsButSuppression(v, Ok(status), Now())
      requires Following(links, before, At(v, functions, tape), fuel, whole, v, Ok(status), Now())
      modifies this
      ensures r.Ok? && !isLast ==> errexitSuppressed
      ensures KeepsButSuppression(v, r, Now())
      ensures r.Err? ==> Keeps(v, r, Now()) && Refines(whole, v, r, Now())
      ensures Following(links[1..], step, At(v, functions, tape), fuel, whole, v, r, Now())
      decreases fuel, link, 0
    {
      hide RunPipeline, RunLinks, Keeps, KeepsButSuppression, Selects, Encodes, Following, Refines;
      ghost var w := Now();
      if isLast {
        errexitSuppressed := saved;
        if link.pipeline.negated {
          errexitSuppressed := true;
        }
      }
      r, step := Ok(status), before;
      if Selects(link.op, status) {
        ghost var start := Now();
        r := ExecutePipeline(link.pipeline, fuel);
        OperandKeeps(v, Ok(status), w, start, r, Now());
        step := LinkRan(links, before, At(v, functions, tape), fuel, whole, v, Ok(status), w, start, r, Now());
      } else {
        RestoredKeeps(v, r, w, Now());
        LinkSkipped(links, before, At(v, functions, tape), fuel, whole, v, r, w, Now());
      }
    }

    method ExecutePipeline(p: Pipeline, fuel: nat) returns (r: Status)
      modifies this
      ensures Keeps(old(Now()), r, Now())
      ensures Refines(RunPipeline(p, At(old(Now()), functions, tape), StateOf(old(Now())), fuel), old(Now()), r, Now())
      ensures begun > old(begun)
      decreases fuel, p, 1
    {
      hide RunCommand, RunPipeline, Keeps, Refines;
      ghost var v := Now();
      begun := begun + 1;
      var saved := errexitSuppressed;
      if p.negated {
        errexitSuppressed := true;
      }
      ghost var start := Now();
      r := ExecuteCommand(p.command, fuel);
      PipelineRan(p, v, functions, tape, fuel, start, r, Now());
      if r.Err? {
        return;
      }
      errexitSuppressed := saved;
      if p.negated {
        r := Ok(if r.value == 0 then 1 else 0);
      }
    }

    method ExecuteCommand(c: Command, fuel: nat) returns (r: Status)
      modifies this
      ensures Keeps(old(Now()), r, Now())
      ensures Refines(RunCommand(c, At(old(Now()), functions, tape), StateOf(old(Now())), fuel), old(Now()), r, Now())
      decreases fuel, c, 1
    {
      hide RunLoop, RunFor, RunArms, RunElifs, RunItems, RunSimple;
      match c
      case Simple(power) => r := ExecuteSimple(power);
      case Forked => r := ExecuteForked();
      case Call(name) => r := ExecuteCall(name, fuel);
      case Group(body) => r := ExecuteProgram(body, fuel);
      case Redirected(command) => r := ExecuteRedirected(command, fuel);
      case If(_, _, _, _) => r := ExecuteIf(c, fuel);
      case Loop(until, condition, body) => r := ExecuteLoop(until, condition, body, fuel);
      case For(body) => r := ExecuteFor(body, fuel);
      case Case(arms) => r := ExecuteCase(arms, fuel);
    }

    /** A compound command whose redirections are expanded and applied around it. */
    method ExecuteRedirected(command: Command, fuel: nat) returns (r: Status)
      modifies this
      ensures Keeps(old(Now()), r, Now())
      ensures Refines(RunCommand(Redirected(command), At(old(Now()), functions, tape), StateOf(old(Now())), fuel), old(Now()), r, Now())
      decreases fuel, command, 2
    {
      ghost var v := Now();
      ghost var whole := RunCommand(Redirected(command), At(v, functions, tape), StateOf(v), fuel);
      RedirectedUnfolds(command, v, functions, tape, fuel);
      hide RunCommand, Encodes, Bounded;
      var e := Next();
      if e.Fail? {
        PlainOutcomes(v, 0, Failed(e.status), Now());
        return Err(Failed(e.status));
      }
      if e.Refused? {
        PlainOutcomes(v, e.status, OutOfFuel, Now());
        return Ok(e.status);
      }
      ghost var start := Now();
      r := ExecuteCommand(command, fuel);
      if Clean(v) && !whole.outcome.Misplaced? {
        EncodesFrom(whole.outcome, start, v, r, Now());
      }
    }

    method ExecuteForked() returns (r: Status)
      modifies this
      ensures Keeps(old(Now()), r, Now())
      ensures Refines(RunForked(Draw(At(old(Now()), functions, tape), StateOf(old(Now()))), Drawn(StateOf(old(Now())))),
                      old(Now()), r, Now())
    {
      var e := Next();
      r := match e
        case Fail(s) => Err(Failed(s))
        case Finish(s) => Ok(s)
        case _ => Ok(0);
    }

    method ExecuteCall(name: string, fuel: nat) returns (r: Status)
      modifies this
      ensures Keeps(old(Now()), r, Now())
      ensures Refines(RunCommand(Call(name), At(old(Now()), functions, tape), StateOf(old(Now())), fuel), old(Now()), r, Now())
      decreases fuel, Call(name), 0
    {
      if name !in functions {
        return Ok(127);
      }
      if fuel == 0 {
        return Err(OutOfFuel);
      }
      hide RunCommand, Bounded, Encodes, Returned;
      ghost var v := Now();
      functionDepth := functionDepth + 1;
      ghost var start := Now();
      r := ExecuteCommand(functions[name], fuel - 1);
      CallEnds(name, v, functions, tape, fuel, start, r, Now());
      functionDepth := functionDepth - 1;
      if r.Ok? && pending.Some? && pending.value.ReturnWith? {
        r := Ok(pending.value.value);
        pending := None;
      }
    }

    /** A condition: errexit is suppressed while it runs. */
    method ExecuteCondition(p: Program, fuel: nat) returns (r: Status)
      modifies this
      ensures Keeps(old(Now()), r, Now()) && begun > old(begun)
      ensures Refines(RunProgram(p, Suppressed(At(old(Now()), functions, tape)), StateOf(old(Now())), fuel),
                      old(Now()).(suppressed := true), r, Now())
      decreases fuel, p, 2
    {
      hide RunProgram, Keeps, Refines;
      ghost var v := Now();
      var saved := errexitSuppressed;
      errexitSuppressed := true;
      ghost var start := Now();
      r := ExecuteProgram(p, fuel);
      ConditionRan(p, v, functions, tape, fuel, start, r, Now());
      if r.Ok? {
        errexitSuppressed := saved;
      }
    }

    method ExecuteIf(c: Command, fuel: nat) returns (r: Status)
      requires c.If?
      modifies this
      ensures Keeps(old(Now()), r, Now())
      ensures Refines(RunCommand(c, At(old(Now()), functions, tape), StateOf(old(Now())), fuel), old(Now()), r, Now())
      decreases fuel, c, 0
    {
      ghost var v := Now();
      ghost var ctx := At(v, functions, tape);
      ghost var step := RunProgram(c.condition, Suppressed(ctx), StateOf(v), fuel);
      ghost var whole := RunCommand(c, ctx, StateOf(v), fuel);
      IfUnfolds(c, ctx, StateOf(v), fuel);
      hide RunProgram, RunCommand, ChainOf, Keeps, Refines;
      r := ExecuteCondition(c.condition, fuel);
      ghost var s, before := r, Now();
      ConditionMeans(step, v, r, before);
      if Clean(v) {
        ChainStatus(step, v, r, before);
      }
      if r.Err? {
        return;
      }
      if r.value == 0 {
        r := ExecuteProgram(c.thenBranch, fuel);
        BranchRan(c.thenBranch, step, whole, v, functions, tape, fuel, s, before, r, Now());
        return;
      }
      var taken;
      r, taken := ExecuteElifs(c.elifs, r.value, v, step, fuel);
      ghost var chain := ChainOf(c.elifs, step, ctx, fuel);
      if Clean(v) {
        ChainStatus(chain.step, v, r, Now());
      }
      if r.Err? || taken {
        return;
      }
      s, before := r, Now();
      if c.otherwise.Some? {
        r := ExecuteProgram(c.otherwise.value, fuel);
        BranchRan(c.otherwise.value, chain.step, whole, v, functions, tape, fuel, s, before, r, Now());
      } else {
        r := Ok(0);
      }
    }

    /** The elif branches after a false condition: `v` and `step` say how `if` began and what
        its condition came to. */
    method ExecuteElifs(elifs: seq<Branch>, status: int, ghost v: View, ghost step: Step, fuel: nat)
      returns (r: Status, taken: bool)
      requires status != 0 && InChain(step, v, Ok(status), Now())
      modifies this
      ensures r.Ok? && !taken ==> r.value != 0
      ensures ChainEnded(ChainOf(elifs, step, At(v, functions, tape), fuel), v, r, taken, Now())
      decreases fuel, elifs, 1
    {
      ghost var ctx := At(v, functions, tape);
      ghost var chain := ChainOf(elifs, step, ctx, fuel);
      hide RunProgram, ChainOf, Keeps, Refines, RunElifs;
      taken := false;
      r := Ok(status);
      ghost var now := step;
      assert elifs[0..] == elifs;
      for i := 0 to |elifs|
        invariant r.Ok? && r.value != 0
        invariant InChain(now, v, r, Now())
        invariant Clean(v) ==> ChainOf(elifs[i..], now, ctx, fuel) == chain
      {
        var branch := elifs[i];
        assert elifs[i..][0] == branch && elifs[i..][1..] == elifs[i + 1..];
        assert (elifs decreases to branch) && (branch decreases to branch.condition);
        assert branch decreases to branch.body;
        ghost var s, before, previous := r, Now(), now;
        r := ExecuteCondition(branch.condition, fuel);
        now := ElifRan(branch.condition, now, v, functions, tape, fuel, s, before, r, Now());
        ChainUnfolds(elifs[i..], previous, ctx, fuel, now);
        if Clean(v) {
          ChainStatus(now, v, r, Now());
        }
        if r.Err? {
          ChainFails(chain, now, v, r, Now());
          return;
        }
        if r.value == 0 {
          taken := true;
          s, before := r, Now();
          r := ExecuteProgram(branch.body, fuel);
          BranchRan(branch.body, now, chain.step, v, functions, tape, fuel, s, before, r, Now());
          return;
        }
      }
      assert elifs[|elifs|..] == [];
      ChainPasses(chain, now, v, r, Now(), ctx, fuel);
    }

    /** The part of a loop that deals with pending control after a condition or a body. */
    method TakePending() returns (signal: LoopSignal)
      modifies this`pending
      ensures signal == SignalOf(old(pending)) && pending == Counted(old(pending))
    {
      match pending
      case None => signal := Proceed;
      case Some(ReturnWith(_)) => signal := LeaveLoop;
      case Some(BreakOut(levels)) =>
        pending := if levels > 1 then Some(BreakOut(levels - 1)) else None;
        signal := LeaveLoop;
      case Some(ContinueOut(levels)) =>
        if levels > 1 {
          pending := Some(ContinueOut(levels - 1));
          signal := LeaveLoop;
        } else {
          pending := None;
          signal := NextTurn;
        }
    }

    method ExecuteLoop(until: bool, condition: Program, body: Program, fuel: nat) returns (r: Status)
      modifies this
      ensures Keeps(old(Now()), r, Now())
      ensures Refines(RunLoop(until, condition, body, 0, At(old(Now()), functions, tape), StateOf(old(Now())), fuel), old(Now()), r, Now())
      decreases fuel, body, 3
    {
      hide RunLoop;
      loopDepth := loopDepth + 1;
      r := LoopTurns(until, condition, body, fuel);
      loopDepth := SaturatingSub(loopDepth, 1);
    }

    method LoopTurns(until: bool, condition: Program, body: Program, fuel: nat) returns (r: Status)
      requires loopDepth >= 1
      modifies this
      ensures loopDepth == old(loopDepth)
      ensures Keeps(Outside(old(Now())), r, Outside(Now()))
      ensures Refines(RunLoop(until, condition, body, 0, At(Outside(old(Now())), functions, tape), StateOf(old(Now())), fuel),
                      Outside(old(Now())), r, Outside(Now()))
      decreases fuel, body, 2
    {
      hide RunLoop, Encodes, Bounded;
      ghost var v := Now();
      ghost var whole := RunLoop(until, condition, body, 0, At(Outside(v), functions, tape), StateOf(v), fuel);
      var budget: nat := fuel;
      var again := true;
      r := Ok(0);
      while again
        invariant loopDepth == v.loopDepth && Keeps(Outside(v), r, Outside(Now()))
        invariant again ==> Keeps(v, r, Now())
        invariant Turned(whole, until, condition, body, v, functions, tape, budget, again, r, Now())
        invariant budget <= fuel
        decreases again, budget
      {
        if budget == 0 {
          OutOfFuelStep(until, condition, body, r.value, At(Outside(v), functions, tape), StateOf(Now()));
          PlainOutcomes(Outside(v), 0, OutOfFuel, Outside(Now()));
          return Err(OutOfFuel);
        }
        budget := budget - 1;
        ghost var before := Now();
        r, again := LoopTurn(until, condition, body, r.value, budget);
        if !again && Clean(v) && !Overran(whole, Now()) {
          EncodesFrom(whole.outcome, Outside(before), Outside(v), r, Outside(Now()));
        }
      }
    }

    /** One turn: the condition and, if it asks for it, the body. */
    method LoopTurn(until: bool, condition: Program, body: Program, last: int, budget: nat)
      returns (r: Status, again: bool)
      requires loopDepth >= 1
      modifies this
      ensures loopDepth == old(loopDepth)
      ensures Keeps(Outside(old(Now())), r, Outside(Now()))
      ensures again ==> Keeps(old(Now()), r, Now())
      ensures Turned(RunLoop(until, condition, body, last, At(Outside(old(Now())), functions, tape), StateOf(old(Now())), budget + 1),
                     until, condition, body, old(Now()), functions, tape, budget, again, r, Now())
      decreases budget + 1, body, 1
    {
      hide RunProgram, RunLoop, Bounded, Turned, BodyRan, Refines, BodyTurn;
      ghost var v := Now();
      again := false;
      r := ExecuteCondition(condition, budget);
      ConditionTurn(until, condition, body, last, v, functions, tape, budget, r, Now());
      if r.Err? {
        return;
      }
      KeepsOutside(v, last, Now());
      var signal := TakePending();
      var shouldRun := if until then r.value != 0 else r.value == 0;
      if !signal.Proceed? || !shouldRun {
        return Ok(last), signal.NextTurn?;
      }
      ghost var whole := RunLoop(until, condition, body, last, At(Outside(v), functions, tape), StateOf(v), budget + 1);
      ghost var w := Now();
      r, again := LoopBody(body, budget);
      BodyTurned(whole, until, condition, body, v, functions, tape, budget, w, again, r, Now());
    }

    /** The body of one turn of a while, until or for loop. */
    method LoopBody(body: Program, budget: nat) returns (r: Status, again: bool)
      requires loopDepth >= 1
      modifies this
      ensures loopDepth == old(loopDepth)
      ensures Keeps(Outside(old(Now())), r, Outside(Now()))
      ensures again ==> r.Ok? && Keeps(old(Now()), r, Now())
      ensures begun > old(begun)
      ensures BodyRan(RunProgram(body, At(old(Now()), functions, tape), StateOf(old(Now())), budget), old(Now()), again, r, Now())
      decreases budget, body, 2
    {
      hide RunProgram, Bounded;
      ghost var v := Now();
      r := ExecuteProgram(body, budget);
      again := false;
      if r.Err? {
        return;
      }
      KeepsOutside(v, r.value, Now());
      ghost var o := RunProgram(body, At(v, functions, tape), StateOf(v), budget).outcome;
      if Clean(v) && !o.Misplaced? {
        TurnEnds(o, v, r.value, Now());
      }
      if !running {
        return;
      }
      var signal := TakePending();
      again := !signal.LeaveLoop?;
    }

    method ExecuteFor(body: Program, fuel: nat) returns (r: Status)
      modifies this
      ensures Keeps(old(Now()), r, Now())
      ensures Refines(RunCommand(For(body), At(old(Now()), functions, tape), StateOf(old(Now())), fuel), old(Now()), r, Now())
      decreases fuel, body, 4
    {
      hide RunFor;
      var e := Next();
      if e.Fail? {
        return Err(Failed(e.status));
      }
      var words := if e.Words? then e.count else 0;
      loopDepth := loopDepth + 1;
      r := ForTurns(body, words, fuel);
      loopDepth := SaturatingSub(loopDepth, 1);
    }

    method ForTurns(body: Program, words: nat, fuel: nat) returns (r: Status)
      requires loopDepth >= 1
      modifies this
      ensures loopDepth == old(loopDepth)
      ensures Keeps(Outside(old(Now())), r, Outside(Now()))
      ensures Refines(RunFor(body, words, 0, At(Outside(old(Now())), functions, tape), StateOf(old(Now())), fuel),
                      Outside(old(Now())), r, Outside(Now()))
      decreases fuel, body, 3
    {
      hide RunProgram, Bounded;
      ghost var v := Now();
      ghost var ctx := At(Outside(v), functions, tape);
      ghost var whole := RunFor(body, words, 0, ctx, StateOf(v), fuel);
      r := Ok(0);
      for k := 0 to words
        invariant r.Ok? && Keeps(v, r, Now()) && Keeps(Outside(v), r, Outside(Now()))
        invariant Clean(v) ==>
                    Overran(whole, Now()) || (CleanSince(v, Now()) && RunFor(body, words - k, r.value, ctx, StateOf(Now()), fuel) == whole)
      {
        var e := Next();
        if e.Fail? {
          return Err(Failed(e.status));
        }
        var again;
        r, again := LoopBody(body, fuel);
        if !again {
          return;
        }
      }
    }

    method ExecuteCase(arms: seq<Arm>, fuel: nat) returns (r: Status)
      modifies this
      ensures Keeps(old(Now()), r, Now())
      ensures Refines(RunCommand(Case(arms), At(old(Now()), functions, tape), StateOf(old(Now())), fuel), old(Now()), r, Now())
      decreases fuel, arms, 2
    {
      hide RunArms, Bounded;
      var e := Next();
      if e.Fail? {
        return Err(Failed(e.status));
      }
      r := ExecuteArms(arms, fuel);
    }

    /** The arms of a case whose word has been expanded. */
    method ExecuteArms(arms: seq<Arm>, fuel: nat) returns (r: Status)
      modifies this
      ensures Keeps(old(Now()), r, Now())
      ensures Refines(RunArms(arms, false, At(old(Now()), functions, tape), StateOf(old(Now())), fuel), old(Now()), r, Now())
      decreases fuel, arms, 1
    {
      ghost var v := Now();
      ghost var whole := RunArms(arms, false, At(v, functions, tape), StateOf(v), fuel);
      var matched := false;
      assert arms[0..] == arms;
      assert ArmsLeft(arms[0..], matched, whole, v, functions, tape, fuel, Now());
      hide ArmsLeft, RunProgram, RunArms, Keeps, Refines;
      for i := 0 to |arms|
        invariant ArmsLeft(arms[i..], matched, whole, v, functions, tape, fuel, Now())
      {
        assert arms[i..][0] == arms[i] && arms[i..][1..] == arms[i + 1..] && |arms[i..]| == |arms| - i;
        assert (arms decreases to arms[i]) && (arms[i] decreases to arms[i].body);
        if !matched {
          ghost var before := Now();
          var e := Next();
          ArmMatched(arms[i..], whole, v, functions, tape, fuel, before, Now());
          if e.Fail? {
            return Err(Failed(e.status));
          }
          matched := e.Match? && e.hit;
        }
        if matched {
          ghost var before := Now();
          r := ExecuteProgram(arms[i].body, fuel);
          ArmRan(arms[i..], whole, v, functions, tape, fuel, before, r, Now());
          if r.Err? || !arms[i].fallthrough || i + 1 >= |arms| {
            return;
          }
        }
      }
      assert arms[|arms|..] == [];
      NoArmsLeft(matched, whole, v, functions, tape, fuel, Now());
      return Ok(0);
    }

    method ExecuteSimple(power: Power) returns (r: Status)
      modifies this
      ensures Keeps(old(Now()), r, Now())
      ensures Refines(RunSimple(Admitted(power, Draw(At(old(Now()), functions, tape), StateOf(old(Now())))),
                                At(old(Now()), functions, tape), Drawn(StateOf(old(Now())))),
                      old(Now()), r, Now())
    {
      hide RunSimple, Encodes, Bounded, Admitted;
      ghost var v := Now();
      var e := Next();
      ghost var start := Now();
      r := Apply(Admitted(power, e));
      ghost var step := RunSimple(Admitted(power, e), At(start, functions, tape), StateOf(start));
      if Clean(v) && !step.outcome.Misplaced? {
        EncodesFrom(step.outcome, start, v, r, Now());
      }
    }

    /** The effect of one event on the shell. */
    method Apply(e: Event) returns (r: Status)
      modifies this
      ensures Keeps(old(Now()), r, Now())
      ensures Refines(RunSimple(e, At(old(Now()), functions, tape), StateOf(old(Now()))), old(Now()), r, Now())
    {
      hide RunJump, ExitStatus, ReturnStatus;
      match e
      case Finish(s) => r := Ok(s);
      case Refused(s) => r := Ok(s);
      case Fail(s) => r := Err(Failed(s));
      case SetErrexit(on) =>
        errexit := on;
        r := Ok(0);
      case ExitCall(args) => r := RaiseExit(args);
      case ReturnCall(args) => r := RaiseReturn(args);
      case BreakCall(args) => r := RaiseJump(args, false);
      case ContinueCall(args) => r := RaiseJump(args, true);
      case _ => r := Ok(0);
    }

    /** The exit builtin. */
    method RaiseExit(args: seq<string>) returns (r: Status)
      modifies this`running
      ensures Keeps(old(Now()), r, Now())
      ensures Refines(RunSimple(ExitCall(args), At(old(Now()), functions, tape), StateOf(old(Now()))), old(Now()), r, Now())
    {
      var status := ExitStatus(args, lastStatus);
      if status.None? {
        return Err(Failed(2));
      }
      running := false;
      r := Ok(status.value);
    }

    /** The return builtin. */
    method RaiseReturn(args: seq<string>) returns (r: Status)
      modifies this`pending
      ensures Keeps(old(Now()), r, Now())
      ensures Refines(RunSimple(ReturnCall(args), At(old(Now()), functions, tape), StateOf(old(Now()))), old(Now()), r, Now())
    {
      if functionDepth == 0 {
        return Err(Failed(1));
      }
      var status := ReturnStatus(args, lastStatus);
      if status.None? {
        return Err(Failed(1));
      }
      pending := Some(ReturnWith(status.value));
      r := Ok(status.value);
    }

    /** The break and continue builtins. */
    method RaiseJump(args: seq<string>, again: bool) returns (r: Status)
      modifies this`pending
      ensures Keeps(old(Now()), r, Now())
      ensures Refines(Step(RunJump(args, again, At(old(Now()), functions, tape)), StateOf(old(Now()))), old(Now()), r, Now())
    {
      hide LoopCount;
      var levels := LoopCount(args);
      if loopDepth == 0 || levels.None? {
        return Err(Failed(1));
      }
      var n := Min(levels.value, loopDepth);
      pending := Some(if again then ContinueOut(n) else BreakOut(n));
      r := Ok(0);
    }
  }
}
