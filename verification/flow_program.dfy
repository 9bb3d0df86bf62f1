/** Shell programs as the interpreter sees them, and the oracle for what it does not decide
    itself: a tape of events, one drawn by each simple command, forked pipeline, redirection
    list, word expansion and pattern match. Statements are about every tape. */
module FlowProgram {
  import opened Wrappers
  import Decimal

  datatype Program = Program(items: seq<AndOr>)

  datatype LogicalOp = And | Or

  datatype AndOr = AndOr(first: Pipeline, rest: seq<Link>)

  datatype Link = Link(op: LogicalOp, pipeline: Pipeline)

  datatype Pipeline = Pipeline(negated: bool, command: Command)

  datatype Command =
    | Simple(power: Power)
    | Forked               // a pipeline of several commands, or a subshell: only a status comes back
    | Call(name: string)   // a shell function
    | Group(body: Program)
    | Redirected(command: Command)   // a compound command with redirections
    | If(condition: Program, thenBranch: Program, elifs: seq<Branch>, otherwise: Option<Program>)
    | Loop(until: bool, condition: Program, body: Program)
    | For(body: Program)
    | Case(arms: seq<Arm>)

  /** What a simple command can do besides finishing with a status: nothing, return, jump as
      well, or exit as well. */
  datatype Power = Ordinary | Returns | Jumps | Any

  datatype Branch = Branch(condition: Program, body: Program)

  datatype Arm = Arm(body: Program, fallthrough: bool)

  datatype Event =
    | Finish(status: int)
    | Fail(status: int)
    | SetErrexit(on: bool)
    | ExitCall(args: seq<string>)
    | ReturnCall(args: seq<string>)
    | BreakCall(args: seq<string>)
    | ContinueCall(args: seq<string>)
    | Words(count: nat)
    | Match(hit: bool)
    | Refused(status: int)   // redirections that cannot be applied

  type Tape = nat -> Event

  type Functions = map<string, Command>

  datatype ShellError = Failed(status: int) | OutOfFuel

  /** A simple command draws no control event beyond its power. */
  function Admitted(power: Power, e: Event): Event {
    if e.ExitCall? && power != Any then Finish(0)
    else if (e.BreakCall? || e.ContinueCall?) && power != Any && power != Jumps then Finish(0)
    else if e.ReturnCall? && power == Ordinary then Finish(0)
    else e
  }

  /** `parse_loop_count`: the level operand of break and continue, None for a usage error. */
  function LoopCount(args: seq<string>): (n: Option<nat>)
    ensures n.Some? ==> n.value >= 1
  {
    if |args| > 1 then None
    else if |args| == 0 then Some(1)
    else
      match Decimal.ParseUsize(args[0])
      case None => None
      case Some(v) => if v >= 1 then Some(v) else None
  }

  function ParseI32(s: string): Option<int> {
    match Decimal.ParseSigned(s)
    case None => None
    case Some(v) => if -0x8000_0000 <= v <= 0x7fff_ffff then Some(v) else None
  }

  /** The status operand of `return`, the previous status by default. */
  function ReturnStatus(args: seq<string>, last: int): Option<int> {
    if |args| > 1 then None
    else if |args| == 0 then Some(last)
    else ParseI32(args[0])
  }

  /** The status operand of `exit`; further operands are ignored. */
  function ExitStatus(args: seq<string>, last: int): Option<int> {
    if |args| == 0 then Some(last) else ParseI32(args[0])
  }

  function Min(a: nat, b: nat): nat {
    if a <= b then a else b
  }

  function Inverted(status: int): int {
    if status == 0 then 1 else 0
  }

  /** The logical operator runs its right operand after this status. */
  predicate Selects(op: LogicalOp, status: int) {
    match op
    case And => status == 0
    case Or => status != 0
  }
}
