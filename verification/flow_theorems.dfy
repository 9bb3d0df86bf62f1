/** Facts about the structured semantics, and the interpreter run from the start. */
module FlowTheorems {
  import opened Wrappers
  import opened FlowProgram
  import opened FlowStructured
  import FlowShell

  // ----- Fuel is only a bound -----

  predicate Finished(step: Step) {
    step.outcome != Error(OutOfFuel)
  }

  lemma FailureStays(links: seq<Link>, step: Step, ctx: Context, fuel: nat)
    requires !HasStatus(step.outcome)
    ensures RunLinks(links, step, ctx, fuel) == step
  {
  }

  /** A run that finishes is not changed by more fuel. */
  lemma {:induction false} MoreFuelProgram(p: Program, ctx: Context, st: State, fuel: nat)
    requires Finished(RunProgram(p, ctx, st, fuel))
    ensures RunProgram(p, ctx, st, fuel + 1) == RunProgram(p, ctx, st, fuel)
    decreases fuel, p, 1
  {
    MoreFuelItems(p.items, 0, ctx, Begun(st), fuel);
  }

  lemma {:induction false} MoreFuelItems(items: seq<AndOr>, status: int, ctx: Context, st: State, fuel: nat)
    requires Finished(RunItems(items, status, ctx, st, fuel))
    ensures RunItems(items, status, ctx, st, fuel + 1) == RunItems(items, status, ctx, st, fuel)
    decreases fuel, items, 0
  {
    if items != [] {
      MoreFuelAndOr(items[0], ctx, st, fuel);
      var step := RunAndOr(items[0], ctx, st, fuel);
      if step.outcome.Normal? {
        MoreFuelItems(items[1..], step.outcome.status, ctx, step.state.(last := step.outcome.status), fuel);
      }
    }
  }

  lemma {:induction false} MoreFuelAndOr(node: AndOr, ctx: Context, st: State, fuel: nat)
    requires Finished(RunAndOr(node, ctx, st, fuel))
    ensures RunAndOr(node, ctx, st, fuel + 1) == RunAndOr(node, ctx, st, fuel)
    decreases fuel, node, 0
  {
    if node.rest == [] {
      MoreFuelPipeline(node.first, ctx, st, fuel);
    } else {
      var step := RunPipeline(node.first, Suppressed(ctx), st, fuel);
      if !HasStatus(step.outcome) {
        FailureStays(node.rest, step, ctx, fuel);
      }
      MoreFuelPipeline(node.first, Suppressed(ctx), st, fuel);
      MoreFuelLinks(node.rest, step, ctx, fuel);
    }
  }

  lemma {:induction false} MoreFuelLinks(links: seq<Link>, step: Step, ctx: Context, fuel: nat)
    requires Finished(RunLinks(links, step, ctx, fuel))
    ensures RunLinks(links, step, ctx, fuel + 1) == RunLinks(links, step, ctx, fuel)
    decreases fuel, links, 0
  {
    if links == [] || !HasStatus(step.outcome) {
    } else if !Selects(links[0].op, step.outcome.status) {
      MoreFuelLinks(links[1..], step, ctx, fuel);
    } else if !Abrupt(step.outcome) {
      assert (links decreases to links[0]) && (links[0] decreases to links[0].pipeline);
      var inner := SuppressedIf(ctx, |links| > 1);
      var next := RunPipeline(links[0].pipeline, inner, step.state, fuel);
      if !HasStatus(next.outcome) {
        FailureStays(links[1..], next, ctx, fuel);
      }
      MoreFuelPipeline(links[0].pipeline, inner, step.state, fuel);
      MoreFuelLinks(links[1..], next, ctx, fuel);
    }
  }

  lemma {:induction false} MoreFuelPipeline(p: Pipeline, ctx: Context, st: State, fuel: nat)
    requires Finished(RunPipeline(p, ctx, st, fuel))
    ensures RunPipeline(p, ctx, st, fuel + 1) == RunPipeline(p, ctx, st, fuel)
    decreases fuel, p, 0
  {
    MoreFuelCommand(p.command, SuppressedIf(ctx, p.negated), Begun(st), fuel);
  }

  lemma {:induction false} MoreFuelCommand(c: Command, ctx: Context, st: State, fuel: nat)
    requires Finished(RunCommand(c, ctx, st, fuel))
    ensures RunCommand(c, ctx, st, fuel + 1) == RunCommand(c, ctx, st, fuel)
    decreases fuel, c, 0
  {
    match c
    case Simple(_) =>
    case Forked =>
    case Call(name) =>
      if name in ctx.functions {
        MoreFuelCommand(ctx.functions[name], ctx.(functionDepth := ctx.functionDepth + 1), st, fuel - 1);
      }
    case Group(body) => MoreFuelProgram(body, ctx, st, fuel);
    case Redirected(command) =>
      if !Draw(ctx, st).Fail? && !Draw(ctx, st).Refused? {
        MoreFuelCommand(command, ctx, Drawn(st), fuel);
      }
    case If(condition, thenBranch, elifs, otherwise) =>
      MoreFuelProgram(condition, Suppressed(ctx), st, fuel);
      var step := RunProgram(condition, Suppressed(ctx), st, fuel);
      if HasStatus(step.outcome) {
        if step.outcome.status == 0 {
          if !Abrupt(step.outcome) {
            MoreFuelProgram(thenBranch, ctx, step.state, fuel);
          }
        } else {
          MoreFuelElifs(elifs, step, ctx, fuel);
          var chain := RunElifs(elifs, step, ctx, fuel);
          if chain.Past? && otherwise.Some? && !Abrupt(chain.step.outcome) {
            MoreFuelProgram(otherwise.value, ctx, chain.step.state, fuel);
          }
        }
      }
    case Loop(until, condition, body) => MoreFuelLoop(until, condition, body, 0, ctx, st, fuel);
    case For(body) =>
      var e := Draw(ctx, st);
      if !e.Fail? {
        MoreFuelFor(body, if e.Words? then e.count else 0, 0, ctx, Drawn(st), fuel);
      }
    case Case(arms) =>
      if !Draw(ctx, st).Fail? {
        MoreFuelArms(arms, false, ctx, Drawn(st), fuel);
      }
  }

  lemma {:induction false} MoreFuelElifs(elifs: seq<Branch>, step: Step, ctx: Context, fuel: nat)
    requires HasStatus(step.outcome)
    requires Finished(RunElifs(elifs, step, ctx, fuel).step)
    ensures RunElifs(elifs, step, ctx, fuel + 1) == RunElifs(elifs, step, ctx, fuel)
    decreases fuel, elifs, 0
  {
    if elifs != [] && !Abrupt(step.outcome) {
      assert (elifs decreases to elifs[0]) && (elifs[0] decreases to elifs[0].condition);
      assert elifs[0] decreases to elifs[0].body;
      MoreFuelProgram(elifs[0].condition, Suppressed(ctx), step.state, fuel);
      var next := RunProgram(elifs[0].condition, Suppressed(ctx), step.state, fuel);
      if HasStatus(next.outcome) {
        if next.outcome.status != 0 {
          MoreFuelElifs(elifs[1..], next, ctx, fuel);
        } else if !Abrupt(next.outcome) {
          MoreFuelProgram(elifs[0].body, ctx, next.state, fuel);
        }
      }
    }
  }

  lemma {:induction false} MoreFuelLoop(until: bool, condition: Program, body: Program, last: int, ctx: Context, st: State, fuel: nat)
    requires Finished(RunLoop(until, condition, body, last, ctx, st, fuel))
    ensures RunLoop(until, condition, body, last, ctx, st, fuel + 1) == RunLoop(until, condition, body, last, ctx, st, fuel)
    decreases fuel, body, 1, 0
  {
    var inner := Inside(ctx);
    var c := RunProgram(condition, Suppressed(inner), st, fuel - 1);
    MoreFuelProgram(condition, Suppressed(inner), st, fuel - 1);
    match c.outcome
    case Jump(target, again, _) =>
      if target >= inner.depth && again {
        MoreFuelLoop(until, condition, body, last, ctx, c.state, fuel - 1);
      }
    case Normal(s) =>
      if ShouldRun(until, s) {
        var b := RunProgram(body, inner, c.state, fuel - 1);
        MoreFuelProgram(body, inner, c.state, fuel - 1);
        match AfterBody(b.outcome, inner.depth)
        case Leave(_) =>
        case Again(t) => MoreFuelLoop(until, condition, body, t, ctx, b.state, fuel - 1);
      }
    case _ =>
  }

  lemma {:induction false} MoreFuelFor(body: Program, words: nat, last: int, ctx: Context, st: State, fuel: nat)
    requires Finished(RunFor(body, words, last, ctx, st, fuel))
    ensures RunFor(body, words, last, ctx, st, fuel + 1) == RunFor(body, words, last, ctx, st, fuel)
    decreases fuel, body, 2, words
  {
    if words > 0 && !Draw(ctx, st).Fail? {
      var inner := Inside(ctx);
      var b := RunProgram(body, inner, Drawn(st), fuel);
      MoreFuelProgram(body, inner, Drawn(st), fuel);
      match AfterBody(b.outcome, inner.depth)
      case Leave(_) =>
      case Again(t) => MoreFuelFor(body, words - 1, t, ctx, b.state, fuel);
    }
  }

  lemma {:induction false} MoreFuelArms(arms: seq<Arm>, matched: bool, ctx: Context, st: State, fuel: nat)
    requires Finished(RunArms(arms, matched, ctx, st, fuel))
    ensures RunArms(arms, matched, ctx, st, fuel + 1) == RunArms(arms, matched, ctx, st, fuel)
    decreases fuel, arms, 0
  {
    if arms != [] {
      var e := Draw(ctx, st);
      var st1 := if matched then st else Drawn(st);
      if !matched && e.Fail? {
      } else if !matched && !(e.Match? && e.hit) {
        MoreFuelArms(arms[1..], false, ctx, st1, fuel);
      } else {
        assert (arms decreases to arms[0]) && (arms[0] decreases to arms[0].body);
        var step := RunProgram(arms[0].body, ctx, st1, fuel);
        assert Finished(step);
        MoreFuelProgram(arms[0].body, ctx, st1, fuel);
        if HasStatus(step.outcome) && arms[0].fallthrough && |arms| > 1 && !Abrupt(step.outcome) {
          MoreFuelArms(arms[1..], true, ctx, step.state, fuel);
        }
      }
    }
  }

  // ----- Where control may be raised -----

  function Rank(power: Power): nat {
    match power
    case Ordinary => 0
    case Returns => 1
    case Jumps => 2
    case Any => 3
  }

  /** The power of each function body; any power for those not listed. */
  type Powers = map<string, Power>

  function BodyPower(powers: Powers, name: string): Power {
    if name in powers then powers[name] else Any
  }

  /** A call catches the return of its body. */
  function CallPower(powers: Powers, name: string): Power {
    if BodyPower(powers, name) == Returns then Ordinary else BodyPower(powers, name)
  }

  /** No simple command of the program, and no function it calls, has more than this power. */
  predicate Within(p: Program, power: Power, powers: Powers)
    decreases p, 0
  {
    power == Any || forall item | item in p.items :: WithinList(item, power, powers)
  }

  predicate WithinList(node: AndOr, power: Power, powers: Powers)
    decreases node, 0
  {
    && WithinCommand(node.first.command, power, powers)
    && forall link | link in node.rest :: WithinLink(link, power, powers)
  }

  predicate WithinLink(link: Link, power: Power, powers: Powers)
    decreases link, 0
  {
    WithinCommand(link.pipeline.command, power, powers)
  }

  predicate WithinBranch(b: Branch, power: Power, powers: Powers)
    decreases b, 0
  {
    Within(b.condition, power, powers) && Within(b.body, power, powers)
  }

  predicate WithinArm(a: Arm, power: Power, powers: Powers)
    decreases a, 0
  {
    Within(a.body, power, powers)
  }

  predicate WithinCommand(c: Command, power: Power, powers: Powers)
    decreases c, 0
  {
    match c
    case Simple(own) => Rank(own) <= Rank(power)
    case Forked => true
    case Call(name) => Rank(CallPower(powers, name)) <= Rank(power)
    case Group(body) => Within(body, power, powers)
    case Redirected(command) => WithinCommand(command, power, powers)
    case If(condition, thenBranch, elifs, otherwise) =>
      && Within(condition, power, powers) && Within(thenBranch, power, powers)
      && (forall b | b in elifs :: WithinBranch(b, power, powers))
      && (otherwise.Some? ==> Within(otherwise.value, power, powers))
    case Loop(_, condition, body) => Within(condition, power, powers) && Within(body, power, powers)
    case For(body) => Within(body, power, powers)
    case Case(arms) => forall a | a in arms :: WithinArm(a, power, powers)
  }

  /** What a placement assumes and asks: the powers of the functions; whether errexit is off and
      nothing switches it on; whether it cannot fire here (`safe`); and whether jumps are to be
      kept from failing (`calm`). */
  datatype Rules = Rules(powers: Powers, errexitOff: bool, safe: bool, calm: bool)

  /** The same where errexit is suppressed. */
  function Guarded(rules: Rules): Rules {
    rules.(safe := true)
  }

  function GuardedIf(rules: Rules, b: bool): Rules {
    if b then Guarded(rules) else rules
  }

  /** Control is raised only where the interpreter acts on it at once: never in an operand of
      `&&` or `||` that another operand follows, never in the condition of an if, never in a `;&`
      arm that another arm follows, where errexit must not fire either; and a loop condition may
      jump but not exit. With `calm`, nor is a jump raised in a loop condition or under a
      negation, where its status may fail. */
  predicate Placed(p: Program, rules: Rules)
    decreases p, 0
  {
    forall item | item in p.items :: PlacedList(item, rules)
  }

  predicate PlacedList(node: AndOr, rules: Rules)
    decreases node, 0
  {
    && PlacedPipeline(node.first, GuardedIf(rules, node.rest != []))
    && (node.rest != [] ==> WithinCommand(node.first.command, Ordinary, rules.powers))
    && (forall k :: 0 <= k < |node.rest| ==> PlacedLink(node.rest[k], GuardedIf(rules, k < |node.rest| - 1)))
    && (forall k :: 0 <= k < |node.rest| - 1 ==> WithinLink(node.rest[k], Ordinary, rules.powers))
  }

  predicate PlacedLink(link: Link, rules: Rules)
    decreases link, 0
  {
    PlacedPipeline(link.pipeline, rules)
  }

  predicate PlacedPipeline(p: Pipeline, rules: Rules)
    decreases p, 0
  {
    PlacedCommand(p.command, GuardedIf(rules, p.negated)) && (rules.calm && p.negated ==> WithinCommand(p.command, Returns, rules.powers))
  }

  predicate PlacedBranch(b: Branch, rules: Rules)
    decreases b, 0
  {
    Placed(b.condition, Guarded(rules)) && Within(b.condition, Ordinary, rules.powers) && Placed(b.body, rules)
  }

  predicate PlacedArm(a: Arm, rules: Rules)
    decreases a, 0
  {
    Placed(a.body, rules)
  }

  predicate PlacedCommand(c: Command, rules: Rules)
    decreases c, 0
  {
    match c
    case Simple(_) => true
    case Forked => true
    case Call(_) => true
    case Group(body) => Placed(body, rules)
    case Redirected(command) => PlacedCommand(command, rules)
    case If(condition, thenBranch, elifs, otherwise) =>
      && Placed(condition, Guarded(rules)) && Within(condition, Ordinary, rules.powers) && Placed(thenBranch, rules)
      && (forall b | b in elifs :: PlacedBranch(b, rules))
      && (otherwise.Some? ==> Placed(otherwise.value, rules))
    case Loop(_, condition, body) =>
      && Placed(condition, Guarded(rules)) && Within(condition, if rules.calm then Returns else Jumps, rules.powers)
      && Placed(body, rules)
    case For(body) => Placed(body, rules)
    case Case(arms) =>
      && (forall a | a in arms :: PlacedArm(a, rules))
      && (forall k :: 0 <= k < |arms| - 1 && arms[k].fallthrough ==> rules.safe && WithinArm(arms[k], Ordinary, rules.powers))
  }

  predicate PlacedFunctions(functions: Functions, rules: Rules) {
    forall name | name in functions ::
      && PlacedCommand(functions[name], rules.(safe := rules.errexitOff))
      && (name in rules.powers ==> WithinCommand(functions[name], rules.powers[name], rules.powers))
  }

  /** Errexit stopped the shell in the middle of a break or continue. */
  predicate LeavesJump(o: Outcome) {
    o.Exit? && o.overtaken.Some? && !o.overtaken.value.ReturnWith?
  }

  /** The rules hold of a command about to run. */
  ghost predicate Fits(rules: Rules, ctx: Context, st: State) {
    && PlacedFunctions(ctx.functions, rules)
    && (rules.safe ==> ctx.suppressed || rules.errexitOff)
    && (rules.errexitOff ==> !st.errexit && forall n: nat :: ctx.tape(n) != SetErrexit(true))
  }

  /** What a step can be: not misplaced; no transfer of control that the power of the simple
      commands does not give, but for errexit where it can fire; and in a calm program no jump
      that fails or is left. */
  predicate Permitted(step: Step, suppressed: bool, power: Power, rules: Rules) {
    var o := step.outcome;
    && !o.Misplaced?
    && ((suppressed || rules.errexitOff) && power != Any ==> !o.Exit?)
    && (Rank(power) <= Rank(Returns) ==> !o.Jump?)
    && (power == Ordinary ==> !o.Return?)
    && (rules.calm ==> !LeavesJump(o) && (o.Jump? ==> o.status == 0))
    && (rules.errexitOff ==> !step.state.errexit)
  }

  /** A well-placed program is never caught with control in the wrong place. */
  lemma {:induction false} PlacedRuns(p: Program, power: Power, rules: Rules, ctx: Context, st: State, fuel: nat)
    requires Placed(p, rules) && Within(p, power, rules.powers) && Fits(rules, ctx, st)
    ensures Permitted(RunProgram(p, ctx, st, fuel), ctx.suppressed, power, rules)
    decreases fuel, p, 1
  {
    PlacedItems(p.items, 0, power, rules, ctx, Begun(st), fuel);
  }

  lemma {:induction false} PlacedItems(items: seq<AndOr>, status: int, power: Power, rules: Rules, ctx: Context, st: State, fuel: nat)
    requires Fits(rules, ctx, st)
    requires forall item | item in items :: PlacedList(item, rules) && (power == Any || WithinList(item, power, rules.powers))
    ensures Permitted(RunItems(items, status, ctx, st, fuel), ctx.suppressed, power, rules)
    decreases fuel, items, 0
  {
    if items != [] {
      assert items[0] in items;
      PlacedListRuns(items[0], power, rules, ctx, st, fuel);
      var step := RunAndOr(items[0], ctx, st, fuel);
      if step.outcome.Normal? {
        PlacedItems(items[1..], step.outcome.status, power, rules, ctx, step.state.(last := step.outcome.status), fuel);
      }
    }
  }

  lemma {:induction false} PlacedListRuns(node: AndOr, power: Power, rules: Rules, ctx: Context, st: State, fuel: nat)
    requires Fits(rules, ctx, st)
    requires PlacedList(node, rules) && (power == Any || WithinList(node, power, rules.powers))
    ensures Permitted(RunAndOr(node, ctx, st, fuel), ctx.suppressed, power, rules)
    decreases fuel, node, 0
  {
    if node.rest == [] {
      PlacedPipelineRuns(node.first, power, rules, ctx, st, fuel);
    } else {
      PlacedPipelineRuns(node.first, Ordinary, Guarded(rules), Suppressed(ctx), st, fuel);
      PlacedLinksRun(node.rest, RunPipeline(node.first, Suppressed(ctx), st, fuel), power, rules, ctx, fuel);
    }
  }

  lemma {:induction false} PlacedLinksRun(links: seq<Link>, step: Step, power: Power, rules: Rules, ctx: Context, fuel: nat)
    requires Fits(rules, ctx, step.state)
    requires forall k :: 0 <= k < |links| ==> PlacedLink(links[k], GuardedIf(rules, k < |links| - 1))
    requires forall link | link in links :: power == Any || WithinLink(link, power, rules.powers)
    requires forall k :: 0 <= k < |links| - 1 ==> WithinLink(links[k], Ordinary, rules.powers)
    requires Permitted(step, ctx.suppressed, power, rules) && (links != [] ==> !Abrupt(step.outcome))
    ensures Permitted(RunLinks(links, step, ctx, fuel), ctx.suppressed, power, rules)
    decreases fuel, links, 0
  {
    if links == [] || !HasStatus(step.outcome) {
    } else if !Selects(links[0].op, step.outcome.status) {
      PlacedLinksRun(links[1..], step, power, rules, ctx, fuel);
    } else {
      assert links[0] in links && PlacedLink(links[0], GuardedIf(rules, |links| > 1));
      assert (links decreases to links[0]) && (links[0] decreases to links[0].pipeline);
      var inner, more := SuppressedIf(ctx, |links| > 1), |links| > 1;
      var next := RunPipeline(links[0].pipeline, inner, step.state, fuel);
      PlacedPipelineRuns(links[0].pipeline, if more then Ordinary else power, GuardedIf(rules, more), inner, step.state, fuel);
      PlacedLinksRun(links[1..], next, power, rules, ctx, fuel);
    }
  }

  lemma {:induction false} PlacedPipelineRuns(p: Pipeline, power: Power, rules: Rules, ctx: Context, st: State, fuel: nat)
    requires Fits(rules, ctx, st)
    requires PlacedPipeline(p, rules) && (power == Any || WithinCommand(p.command, power, rules.powers))
    ensures Permitted(RunPipeline(p, ctx, st, fuel), ctx.suppressed, power, rules)
    decreases fuel, p, 0
  {
    PlacedCommandRuns(p.command, power, GuardedIf(rules, p.negated), SuppressedIf(ctx, p.negated), Begun(st), fuel);
    if rules.calm && p.negated {
      PlacedCommandRuns(p.command, Returns, Guarded(rules), Suppressed(ctx), Begun(st), fuel);
    }
  }

  lemma {:induction false} PlacedCommandRuns(c: Command, power: Power, rules: Rules, ctx: Context, st: State, fuel: nat)
    requires Fits(rules, ctx, st)
    requires PlacedCommand(c, rules) && (power == Any || WithinCommand(c, power, rules.powers))
    ensures Permitted(RunCommand(c, ctx, st, fuel), ctx.suppressed, power, rules)
    decreases fuel, c, 1
  {
    match c
    case Simple(_) =>
    case Forked =>
    case Call(name) => PlacedCallRuns(name, power, rules, ctx, st, fuel);
    case Group(body) => PlacedRuns(body, power, rules, ctx, st, fuel);
    case Redirected(command) => PlacedCommandRuns(command, power, rules, ctx, Drawn(st), fuel);
    case If(_, _, _, _) =>
      PlacedIfRuns(c, power, rules, ctx, st, fuel);
    case Loop(until, condition, body) => PlacedLoopRuns(until, condition, body, 0, power, rules, ctx, st, fuel);
    case For(body) =>
      var e := Draw(ctx, st);
      if !e.Fail? {
        PlacedForRuns(body, if e.Words? then e.count else 0, 0, power, rules, ctx, Drawn(st), fuel);
      }
    case Case(arms) =>
      if !Draw(ctx, st).Fail? {
        PlacedArmsRun(arms, false, power, rules, ctx, Drawn(st), fuel);
      }
  }

  lemma {:induction false} PlacedCallRuns(name: string, power: Power, rules: Rules, ctx: Context, st: State, fuel: nat)
    requires Fits(rules, ctx, st) && WithinCommand(Call(name), power, rules.powers)
    ensures Permitted(RunCommand(Call(name), ctx, st, fuel), ctx.suppressed, power, rules)
    decreases fuel, Call(name), 0
  {
    if name in ctx.functions && fuel > 0 {
      var inner := ctx.(functionDepth := ctx.functionDepth + 1);
      PlacedCommandRuns(ctx.functions[name], BodyPower(rules.powers, name), rules.(safe := rules.errexitOff), inner, st, fuel - 1);
    }
  }

  lemma {:induction false} PlacedIfRuns(c: Command, power: Power, rules: Rules, ctx: Context, st: State, fuel: nat)
    requires Fits(rules, ctx, st) && c.If?
    requires PlacedCommand(c, rules) && (power == Any || WithinCommand(c, power, rules.powers))
    ensures Permitted(RunCommand(c, ctx, st, fuel), ctx.suppressed, power, rules)
    decreases fuel, c, 0
  {
    PlacedRuns(c.condition, Ordinary, Guarded(rules), Suppressed(ctx), st, fuel);
    var step := RunProgram(c.condition, Suppressed(ctx), st, fuel);
    if HasStatus(step.outcome) {
      if step.outcome.status == 0 {
        PlacedRuns(c.thenBranch, power, rules, ctx, step.state, fuel);
      } else {
        PlacedElifsRun(c.elifs, step, power, rules, ctx, fuel);
        var chain := RunElifs(c.elifs, step, ctx, fuel);
        if chain.Past? && c.otherwise.Some? {
          PlacedRuns(c.otherwise.value, power, rules, ctx, chain.step.state, fuel);
        }
      }
    }
  }

  lemma {:induction false} PlacedElifsRun(elifs: seq<Branch>, step: Step, power: Power, rules: Rules, ctx: Context, fuel: nat)
    requires Fits(rules, ctx, step.state) && step.outcome.Normal?
    requires forall b | b in elifs :: PlacedBranch(b, rules) && (power == Any || WithinBranch(b, power, rules.powers))
    ensures var chain := RunElifs(elifs, step, ctx, fuel);
            if chain.Past? then chain.step.outcome.Normal? && Fits(rules, ctx, chain.step.state)
            else Permitted(chain.step, ctx.suppressed, power, rules)
    decreases fuel, elifs, 0
  {
    if elifs != [] {
      assert elifs[0] in elifs;
      assert (elifs decreases to elifs[0]) && (elifs[0] decreases to elifs[0].condition);
      assert elifs[0] decreases to elifs[0].body;
      PlacedRuns(elifs[0].condition, Ordinary, Guarded(rules), Suppressed(ctx), step.state, fuel);
      var next := RunProgram(elifs[0].condition, Suppressed(ctx), step.state, fuel);
      if HasStatus(next.outcome) {
        if next.outcome.status == 0 {
          PlacedRuns(elifs[0].body, power, rules, ctx, next.state, fuel);
        } else {
          PlacedElifsRun(elifs[1..], next, power, rules, ctx, fuel);
        }
      }
    }
  }

  lemma {:induction false} PlacedLoopRuns(until: bool, condition: Program, body: Program, last: int, power: Power, rules: Rules,
                                          ctx: Context, st: State, fuel: nat)
    requires Fits(rules, ctx, st)
    requires Placed(condition, Guarded(rules)) && Within(condition, if rules.calm then Returns else Jumps, rules.powers) && Within(condition, power, rules.powers)
    requires Placed(body, rules) && Within(body, power, rules.powers)
    ensures Permitted(RunLoop(until, condition, body, last, ctx, st, fuel), ctx.suppressed, power, rules)
    decreases fuel, body, 2, 0
  {
    if fuel > 0 {
      var inner := Inside(ctx);
      var c := RunProgram(condition, Suppressed(inner), st, fuel - 1);
      PlacedRuns(condition, if rules.calm then Returns else Jumps, Guarded(rules), Suppressed(inner), st, fuel - 1);
      PlacedRuns(condition, power, Guarded(rules), Suppressed(inner), st, fuel - 1);
      match c.outcome
      case Jump(target, again, _) =>
        if target >= inner.depth && again {
          PlacedLoopRuns(until, condition, body, last, power, rules, ctx, c.state, fuel - 1);
        }
      case Normal(s) =>
        if ShouldRun(until, s) {
          var b := RunProgram(body, inner, c.state, fuel - 1);
          PlacedRuns(body, power, rules, inner, c.state, fuel - 1);
          match AfterBody(b.outcome, inner.depth)
          case Leave(_) =>
          case Again(t) => PlacedLoopRuns(until, condition, body, t, power, rules, ctx, b.state, fuel - 1);
        }
      case _ =>
    }
  }

  lemma {:induction false} PlacedForRuns(body: Program, words: nat, last: int, power: Power, rules: Rules, ctx: Context, st: State, fuel: nat)
    requires Fits(rules, ctx, st) && Placed(body, rules) && Within(body, power, rules.powers)
    ensures Permitted(RunFor(body, words, last, ctx, st, fuel), ctx.suppressed, power, rules)
    decreases fuel, body, 2, words
  {
    if words > 0 && !Draw(ctx, st).Fail? {
      var inner := Inside(ctx);
      var b := RunProgram(body, inner, Drawn(st), fuel);
      PlacedRuns(body, power, rules, inner, Drawn(st), fuel);
      match AfterBody(b.outcome, inner.depth)
      case Leave(_) =>
      case Again(t) => PlacedForRuns(body, words - 1, t, power, rules, ctx, b.state, fuel);
    }
  }

  lemma {:induction false} PlacedArmsRun(arms: seq<Arm>, matched: bool, power: Power, rules: Rules, ctx: Context, st: State, fuel: nat)
    requires Fits(rules, ctx, st)
    requires forall a | a in arms :: PlacedArm(a, rules) && (power == Any || WithinArm(a, power, rules.powers))
    requires forall k :: 0 <= k < |arms| - 1 && arms[k].fallthrough ==> rules.safe && WithinArm(arms[k], Ordinary, rules.powers)
    ensures Permitted(RunArms(arms, matched, ctx, st, fuel), ctx.suppressed, power, rules)
    decreases fuel, arms, 0
  {
    if arms != [] {
      var e := Draw(ctx, st);
      var now := if matched then st else Drawn(st);
      if !matched && !(e.Match? && e.hit) {
        if !e.Fail? {
          PlacedArmsRun(arms[1..], false, power, rules, ctx, now, fuel);
        }
      } else {
        assert arms[0] in arms;
        assert (arms decreases to arms[0]) && (arms[0] decreases to arms[0].body);
        PlacedRuns(arms[0].body, power, rules, ctx, now, fuel);
        if arms[0].fallthrough && |arms| > 1 {
          PlacedRuns(arms[0].body, Ordinary, rules, ctx, now, fuel);
          PlacedArmsRun(arms[1..], true, power, rules, ctx, RunProgram(arms[0].body, ctx, now, fuel).state, fuel);
        }
      }
    }
  }

  // ----- The interpreter from the start -----

  function StartContext(functions: Functions, tape: Tape): Context {
    Context(0, false, 0, functions, tape)
  }

  function StartState(errexit: bool): State {
    State(0, errexit, 0, 0)
  }

  /** Any script run by a fresh shell. Unless the structured semantics meets a misplaced
      transfer, the shell ends with its status, having begun the same pipelines and lists, and
      runs on with nothing pending exactly when the script did not exit; after an exit, what is
      pending is what errexit overtook. A break or continue is left pending if and only if
      errexit stopped the running shell while one was pending, which happens at most once. If
      the semantics meets a misplaced transfer, and only then, the shell begins something more. */
  method RunScript(p: Program, functions: Functions, tape: Tape, errexit: bool, fuel: nat)
    returns (r: FlowShell.Status, running: bool, pending: Option<Control>, ghost begun: nat, ghost overtook: nat)
    ensures match RunProgram(p, StartContext(functions, tape), StartState(errexit), fuel).outcome
            case Normal(s) => r == Ok(s) && running && pending.None? && overtook == 0
            case Exit(s, overtaken) =>
              && r == Ok(s) && !running && pending == overtaken
              && overtook == if FlowShell.IsJump(pending) then 1 else 0
            case Error(e) => r == Err(e)
            case Misplaced =>
              forall rules: Rules ::
                !(Placed(p, rules) && Fits(rules, StartContext(functions, tape), StartState(errexit)))
            case Jump(_, _, _) => false
            case Return(_, _) => false
    ensures var step := RunProgram(p, StartContext(functions, tape), StartState(errexit), fuel);
            begun >= step.state.begun && (begun > step.state.begun <==> step.outcome.Misplaced?)
  {
    var shell := new FlowShell.Shell(tape, functions, errexit);
    r := shell.ExecuteProgram(p, fuel);
    running, pending, begun, overtook := shell.running, shell.pending, shell.begun, shell.overtook;
    ghost var ctx := StartContext(functions, tape);
    assert FlowShell.At(FlowShell.Start(errexit), functions, tape) == ctx;
    forall rules: Rules | Placed(p, rules) && Fits(rules, ctx, StartState(errexit))
      ensures !RunProgram(p, ctx, StartState(errexit), fuel).outcome.Misplaced?
    {
      PlacedRuns(p, Any, rules, ctx, StartState(errexit), fuel);
    }
    NoLoopToLeave(FlowShell.Start(errexit), RunProgram(p, ctx, StartState(errexit), fuel), r, shell.Now());
  }

  /** Outside every loop and function no jump or return can be pending. */
  lemma NoLoopToLeave(v: FlowShell.View, step: Step, r: FlowShell.Status, w: FlowShell.View)
    requires FlowShell.Clean(v) && v.loopDepth == 0 && v.functionDepth == 0
    requires FlowShell.Keeps(v, r, w) && FlowShell.Refines(step, v, r, w)
    ensures !step.outcome.Jump? && !step.outcome.Return?
  {
  }

  // ----- When errexit overtakes a break or continue -----

  /** The outcome of a list before the errexit check at its end. */
  function Operands(node: AndOr, ctx: Context, st: State, fuel: nat): Step {
    if node.rest == [] then RunPipeline(node.first, ctx, st, fuel)
    else RunLinks(node.rest, RunPipeline(node.first, Suppressed(ctx), st, fuel), ctx, fuel)
  }

  /** Errexit acts at the end of a list, on a status that is not zero. */
  predicate ErrexitFires(node: AndOr, step: Step, ctx: Context) {
    !LastPipeline(node).negated && HasStatus(step.outcome) && step.outcome.status != 0 && step.state.errexit && !ctx.suppressed
  }

  predicate Overtakes(node: AndOr, step: Step, ctx: Context) {
    step.outcome.Jump? && step.outcome.target <= ctx.depth && ErrexitFires(node, step, ctx)
  }

  /** A list leaves a break or continue pending in a stopped shell exactly when errexit fires
      while a jump with a failing status is on its way, or when something inside it has. */
  lemma JumpLeftExactly(node: AndOr, ctx: Context, st: State, fuel: nat)
    ensures (var step, o := Operands(node, ctx, st, fuel), RunAndOr(node, ctx, st, fuel).outcome;
             LeavesJump(o) <==> LeavesJump(step.outcome) || Overtakes(node, step, ctx))
    ensures (var step, o := Operands(node, ctx, st, fuel), RunAndOr(node, ctx, st, fuel).outcome;
             Overtakes(node, step, ctx) ==>
               o == Exit(step.outcome.status, Some(JumpOut(ctx.depth - step.outcome.target + 1, step.outcome.again))))
  {
    hide RunPipeline, RunLinks;
  }

  /** A script with no jump in a loop condition or under a negation never ends with a break or
      continue pending. */
  lemma CalmScriptLeavesNoJump(p: Program, rules: Rules, functions: Functions, tape: Tape, errexit: bool, fuel: nat)
    requires rules.calm && Placed(p, rules) && Fits(rules, StartContext(functions, tape), StartState(errexit))
    ensures !LeavesJump(RunProgram(p, StartContext(functions, tape), StartState(errexit), fuel).outcome)
  {
    PlacedRuns(p, Any, rules, StartContext(functions, tape), StartState(errexit), fuel);
  }

  /** `set -e; while true; do { ! break; }; done`: the negation makes the status of the break 1,
      errexit fires at the end of the group's list, and the loop leaves without taking its
      level, so the break is still pending when no loop is left. */
  lemma {:induction false} NegatedBreakStaysPending(ctx: Context, st: State, fuel: nat)
    requires !ctx.suppressed && st.errexit && fuel >= 1
    requires ctx.tape(st.pos) == Finish(0) && ctx.tape(st.pos + 1) == BreakCall([])
    ensures var group := Group(Program([AndOr(Pipeline(true, Simple(Jumps)), [])]));
            var body := Program([AndOr(Pipeline(false, group), [])]);
            RunLoop(false, Program([SimpleList(Ordinary, [])]), body, 0, ctx, st, fuel).outcome == Exit(1, Some(BreakOut(1)))
  {
    var inner := Inside(ctx);
    var condition := Program([SimpleList(Ordinary, [])]);
    OneItem(SimpleList(Ordinary, []), Suppressed(inner), st, fuel - 1);
    assert RunCommand(Simple(Ordinary), Suppressed(inner), Begun(Begun(st)), fuel - 1) == Step(Normal(0), Drawn(Begun(Begun(st))));
    var c := RunProgram(condition, Suppressed(inner), st, fuel - 1);
    assert c.outcome == Normal(0);
    var negated := AndOr(Pipeline(true, Simple(Jumps)), []);
    var item := AndOr(Pipeline(false, Group(Program([negated]))), []);
    OneItem(item, inner, c.state, fuel - 1);
    var now := Begun(Begun(c.state));
    OneItem(negated, inner, now, fuel - 1);
    var at := Begun(Begun(now));
    assert RunCommand(Simple(Jumps), Suppressed(inner), at, fuel - 1) == Step(Jump(inner.depth, false, 0), Drawn(at));
    assert RunPipeline(negated.first, inner, Begun(now), fuel - 1) == Step(Jump(inner.depth, false, 1), Drawn(at));
    var group := RunProgram(Program([negated]), inner, now, fuel - 1);
    assert group.outcome == Jump(inner.depth, false, 1);
    assert RunPipeline(item.first, inner, Begun(c.state), fuel - 1) == group;
    assert RunAndOr(item, inner, Begun(c.state), fuel - 1).outcome == Exit(1, Some(BreakOut(1)));
  }

  /** A program of one list. */
  lemma OneItem(item: AndOr, ctx: Context, st: State, fuel: nat)
    ensures var step := RunAndOr(item, ctx, Begun(st), fuel);
            RunProgram(Program([item]), ctx, st, fuel)
            == (if HasStatus(step.outcome) then Step(step.outcome, step.state.(last := step.outcome.status)) else step)
  {
    hide RunAndOr;
    var step := RunAndOr(item, ctx, Begun(st), fuel);
    assert [item][1..] == [];
    if step.outcome.Normal? {
      var after := step.state.(last := step.outcome.status);
      assert RunItems([item], 0, ctx, Begun(st), fuel) == RunItems([], step.outcome.status, ctx, after, fuel);
    }
    assert Program([item]).items == [item];
  }

  // ----- When errexit fires although the last operand was skipped -----

  /** The last operand of a list comes after all the others, which run suppressed. */
  lemma {:induction false} LastOperand(front: seq<Link>, last: Link, step: Step, ctx: Context, fuel: nat)
    ensures RunLinks(front + [last], step, ctx, fuel) == RunLinks([last], RunLinks(front, step, Suppressed(ctx), fuel), ctx, fuel)
    decreases |front|
  {
    hide RunPipeline;
    if front == [] {
      assert front + [last] == [last];
    } else if !HasStatus(step.outcome) {
    } else {
      assert (front + [last])[0] == front[0] && (front + [last])[1..] == front[1..] + [last];
      if !Selects(front[0].op, step.outcome.status) {
        LastOperand(front[1..], last, step, ctx, fuel);
      } else if !Abrupt(step.outcome) {
        assert SuppressedIf(ctx, |front + [last]| > 1) == SuppressedIf(Suppressed(ctx), |front| > 1);
        LastOperand(front[1..], last, RunPipeline(front[0].pipeline, Suppressed(ctx), step.state, fuel), ctx, fuel);
      }
    }
  }

  /** When the last operand of a list is skipped, the list still ends the shell if its last
      pipeline is not negated, the status is not zero, errexit is on and not suppressed, and
      only then; the status is that of the operand before, which the standard exempts. */
  lemma SkippedOperandExits(node: AndOr, ctx: Context, st: State, fuel: nat)
    requires node.rest != []
    requires var before := RunLinks(node.rest[..|node.rest| - 1], RunPipeline(node.first, Suppressed(ctx), st, fuel), Suppressed(ctx), fuel);
             before.outcome.Normal? && !Selects(node.rest[|node.rest| - 1].op, before.outcome.status)
    ensures var before := RunLinks(node.rest[..|node.rest| - 1], RunPipeline(node.first, Suppressed(ctx), st, fuel), Suppressed(ctx), fuel);
            var s := before.outcome.status;
            RunAndOr(node, ctx, st, fuel)
            == if !LastPipeline(node).negated && s != 0 && before.state.errexit && !ctx.suppressed
               then Step(Exit(s, None), before.state.(last := s))
               else before
  {
    hide RunPipeline;
    var n := |node.rest| - 1;
    assert node.rest == node.rest[..n] + [node.rest[n]];
    LastOperand(node.rest[..n], node.rest[n], RunPipeline(node.first, Suppressed(ctx), st, fuel), ctx, fuel);
  }

  // ----- When errexit fires in an arm that falls through -----

  /** A `;&` arm of one list that comes to a status: the next arm is begun although the shell has
      been stopped, exactly when errexit fires at the end of the list. */
  lemma FallthroughOverrunsExactly(node: AndOr, rest: seq<Arm>, ctx: Context, st: State, fuel: nat)
    requires rest != [] && Operands(node, ctx, Begun(st), fuel).outcome.Normal?
    ensures var step := Operands(node, ctx, Begun(st), fuel);
            var after := step.state.(last := step.outcome.status);
            RunArms([Arm(Program([node]), true)] + rest, true, ctx, st, fuel)
            == (if ErrexitFires(node, step, ctx) then Step(Misplaced, after) else RunArms(rest, true, ctx, after, fuel))
  {
    hide RunPipeline, RunLinks;
    OneItem(node, ctx, st, fuel);
    var arms := [Arm(Program([node]), true)] + rest;
    assert arms[0] == Arm(Program([node]), true) && arms[1..] == rest;
  }

  /** So `set -e; case a in a) false ;& b) command ;; esac` begins the command: the first arm's
      command fails with errexit on and not suppressed. */
  lemma FallthroughAfterErrexit(s: int, ctx: Context, st: State, fuel: nat)
    requires Draw(ctx, st) == Match(true) && ctx.tape(st.pos + 1) == Finish(s) && ctx.tape(st.pos + 2).Finish?
    ensures var body := Program([SimpleList(Ordinary, [])]);
            (RunArms([Arm(body, true), Arm(body, false)], false, ctx, st, fuel).outcome == Misplaced
             <==> s != 0 && st.errexit && !ctx.suppressed)
  {
    var node := SimpleList(Ordinary, []);
    var body, st1 := Program([node]), Drawn(st);
    var arms := [Arm(body, true)] + [Arm(body, false)];
    assert arms == [Arm(body, true), Arm(body, false)];
    assert RunCommand(node.first.command, ctx, Begun(Begun(st1)), fuel) == Step(Normal(s), Drawn(Begun(Begun(st1))));
    assert Operands(node, ctx, Begun(st1), fuel) == Step(Normal(s), Drawn(Begun(Begun(st1))));
    FallthroughOverrunsExactly(node, [Arm(body, false)], ctx, st1, fuel);
    assert RunArms(arms, false, ctx, st, fuel) == RunArms(arms, true, ctx, st1, fuel);
    var after := Drawn(Begun(Begun(st1))).(last := s);
    OneItem(node, ctx, after, fuel);
    assert RunCommand(node.first.command, ctx, Begun(Begun(after)), fuel).outcome.Normal?;
    assert RunPipeline(node.first, ctx, Begun(after), fuel).outcome.Normal?;
  }

  // ----- When the status of an exit is replaced -----

  /** A negation inverts the status of an exit, and so never keeps it. */
  lemma ExitUnderNegation(c: Command, ctx: Context, st: State, fuel: nat)
    requires RunCommand(c, Suppressed(ctx), Begun(st), fuel).outcome.Exit?
    ensures var o := RunCommand(c, Suppressed(ctx), Begun(st), fuel).outcome;
            RunPipeline(Pipeline(true, c), ctx, st, fuel).outcome == Exit(Inverted(o.status), o.overtaken)
    ensures forall s :: Inverted(s) != s
  {
    hide RunCommand;
  }

  /** An `if` condition that exits: misplaced if a branch is left to begin, and else the shell ends
      with 0, the status of an `if` that runs no branch, whatever the status of the exit. */
  lemma ExitInIfCondition(c: Command, ctx: Context, st: State, fuel: nat)
    requires c.If? && RunProgram(c.condition, Suppressed(ctx), st, fuel).outcome.Exit?
    ensures var o := RunProgram(c.condition, Suppressed(ctx), st, fuel).outcome;
            RunCommand(c, ctx, st, fuel).outcome
            == (if o.status == 0 || c.elifs != [] || c.otherwise.Some? then Misplaced else Exit(0, o.overtaken))
  {
    hide RunProgram;
  }

  /** A loop condition that exits: misplaced if the body is to run, and else the shell ends with the
      status of the latest body, 0 if there was none. */
  lemma ExitInLoopCondition(until: bool, condition: Program, body: Program, last: int, ctx: Context, st: State, fuel: nat)
    requires fuel >= 1 && RunProgram(condition, Suppressed(Inside(ctx)), st, fuel - 1).outcome.Exit?
    ensures var o := RunProgram(condition, Suppressed(Inside(ctx)), st, fuel - 1).outcome;
            RunLoop(until, condition, body, last, ctx, st, fuel).outcome
            == (if ShouldRun(until, o.status) then Misplaced else Exit(last, o.overtaken))
  {
    hide RunProgram;
  }

  // ----- Programs whose meaning departs from the standard -----

  function SimpleList(power: Power, rest: seq<Link>): AndOr {
    AndOr(Pipeline(false, Simple(power)), rest)
  }

  /** So `set -e; false && true` ends the shell. Only one command has been drawn. */
  lemma ErrexitFiresAfterShortCircuit(ctx: Context, st: State, fuel: nat)
    requires !ctx.suppressed && st.errexit && Draw(ctx, st) == Finish(1)
    ensures RunAndOr(SimpleList(Ordinary, [Link(And, Pipeline(false, Simple(Ordinary)))]), ctx, st, fuel)
         == Step(Exit(1, None), State(st.pos + 1, true, 1, st.begun + 1))
  {
    var first := Pipeline(false, Simple(Ordinary));
    assert RunCommand(Simple(Ordinary), Suppressed(ctx), Begun(st), fuel) == Step(Normal(1), Drawn(Begun(st)));
    var node := SimpleList(Ordinary, [Link(And, first)]);
    assert node.rest[..0] == [];
    SkippedOperandExits(node, ctx, st, fuel);
  }

  /** `break && command` inside a loop: the interpreter would run the command first. */
  lemma BreakBeforeOperandIsMisplaced(ctx: Context, st: State, fuel: nat)
    requires ctx.depth >= 1 && Draw(ctx, st) == BreakCall([])
    ensures RunAndOr(SimpleList(Jumps, [Link(And, Pipeline(false, Simple(Ordinary)))]), ctx, st, fuel).outcome == Misplaced
  {
    var first := Pipeline(false, Simple(Jumps));
    var links := [Link(And, Pipeline(false, Simple(Ordinary)))];
    var step := RunPipeline(first, Suppressed(ctx), st, fuel);
    assert RunCommand(Simple(Jumps), Suppressed(ctx), Begun(st), fuel)
        == Step(Jump(TargetOf(ctx.depth, 1), false, 0), Drawn(Begun(st)));
    assert RunLinks(links, step, ctx, fuel) == Step(Misplaced, step.state);
  }

  /** `exit n` as a loop condition: with 0 the body is begun although the shell has been told to
      stop; with any other status the shell ends with 0 instead. */
  lemma ExitAsLoopCondition(text: string, n: int, body: Program, ctx: Context, st: State, fuel: nat)
    requires Draw(ctx, st) == ExitCall([text]) && ParseI32(text) == Some(n) && fuel >= 1
    ensures RunLoop(false, Program([SimpleList(Any, [])]), body, 0, ctx, st, fuel).outcome
         == if n == 0 then Misplaced else Exit(0, None)
  {
    var inner := Suppressed(Inside(ctx));
    var item := SimpleList(Any, []);
    OneItem(item, inner, st, fuel - 1);
    var at := Begun(Begun(st));
    assert RunCommand(Simple(Any), inner, at, fuel - 1) == Step(Exit(n, None), Drawn(at));
    assert RunPipeline(item.first, inner, Begun(st), fuel - 1) == Step(Exit(n, None), Drawn(at));
    ExitInLoopCondition(false, Program([item]), body, 0, ctx, st, fuel);
  }
}
