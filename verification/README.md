# Models of the meiksh shell

meiksh is a POSIX shell written in Rust. This project models the algorithms of the shell whose
correctness is hardest to see from the code, and proves what each of them promises. Every file
is one module; `dafny verify dfyconfig.toml` checks all of them.

| files | what they model |
|---|---|
| `wrappers.dfy`, `int64.dfy`, `bytes.dfy` | shared types: Option and Result, Rust's `i64` arithmetic, byte classes |
| `decimal.dfy` | number parsing and formatting |
| `arith_syntax.dfy`, `arith_spelling.dfy`, `arith_semantics.dfy`, `arith_evaluator.dfy` | arithmetic expansion: grammar, spelling, meanings, the one-pass evaluator |
| `arith_operators.dfy` | laws of the operators, of variables and of nounset |
| `arith_written.dfy`, `arith_errors.dfy` | the bytes in which constants and operators are written, and texts that are rejected |
| `flow_program.dfy`, `flow_structured.dfy`, `flow_shell.dfy`, `flow_theorems.dfy` | lists, compound commands, `break`, `continue`, `return`, `exit`, errexit |
| `flow_programs.dfy` | what each construct does with the commands in it, for all programs and tapes |
| `fd_kernel.dfy`, `fd_redirection.dfy` | descriptor tables, system calls, and what redirections mean |
| `fd_guard.dfy`, `fd_command.dfy` | the guard that undoes redirections in the shell, and the redirected command |
| `fd_child.dfy`, `fd_pipeline.dfy` | redirections applied in a child, pipelines |
| `hash.dfy` | the hasher of the shell's tables |
| `getopts.dfy` | the `getopts` builtin |
| `read_line.dfy`, `read_split.dfy` | the `read` builtin: input and splitting |
| `printf.dfy`, `printf_text.dfy` | the `printf` driver: format scanning and operand reuse; formats and `%b` operands as they are written |
| `path.dfy` | logical paths of `cd` and `pwd` |
| `quoting.dfy` | quoting of alias values |

How the parts are proved:

* Arithmetic. `ArithSyntax` is a pure parser from text to trees; writing any tree with the fewest
  parentheses and parsing it gives the tree back, which fixes precedence and associativity.
  `ArithSemantics.Lazy` is the meaning C gives a tree, `Eager` what one pass over the text can do.
  The evaluator class, with the source's cursor and skip depth, yields exactly the `Eager` outcome on
  every text that parses, and on any other an error with the variables that the part already read
  leaves; `Eager` succeeds if and only if `Lazy` does and every operand that `Lazy` leaves out can
  be scanned without error, and then value and variables are the same. What an operator computes is
  fixed by laws over all i64 values (`ArithOperators`), which bytes stand for it by the trees of
  texts written out (`ArithWritten`), and what is no expression by spellings with a part missing or one
  too many (`ArithErrors`).
* Control flow. `FlowShell.Shell` is the interpreter with its flags; `FlowStructured` a big-step
  semantics whose outcomes say where control goes. Words, simple commands and pattern matches are
  events on a tape that both read, and every statement is about all tapes. `fuel` bounds
  the turns of loops and calls, and the outcome of a run that ends does not depend on it. While the
  shell runs, pending control names an enclosing loop or function; errexit can stop the shell while
  a transfer of control is on its way, and then exactly that transfer stays pending. The
  reference stops, `Misplaced`, where control is transferred and the interpreter does not look; both
  count the pipelines and lists they begin, and the interpreter begins more than the reference if and
  only if the reference stopped there. What the reference does is fixed from the events:
  `FlowPrograms` says what each construct runs and with which status it ends.
* Descriptors. A process holds a map from numbers to open descriptions with a close-on-exec mark.
  System calls allocate the lowest free number and may fail when a schedule of faults says so. A file
  system of paths, regular with contents or special, is what noclobber looks at. An operation succeeds
  if and only if nothing in it is refused and no fault falls in its time. Lists
  of redirections have any targets and sources; conditions that the code needs are proved exact.
* `getopts` and `read` are proved against one left-to-right decoding of their input; the transfer
  sizes of reads are arbitrary.

Where the code departs from what its comments, its own documentation or the standard promise, the
model follows the code, and a lemma gives the input:

* An operand that `&&`, `||` or `?:` skips is still scanned for errors, so `1 || 1/0` fails
  (`OmittedOperandCanStopTheScan`). The minimum i64 can be stored in a variable but not read back
  (`StoreThenResolve`). The quotient and remainder of the minimum by -1 have no wrapping form; the
  model makes them an error outcome.
* Under `set -e` a list whose last operand was skipped still ends the shell, as in `false && true`;
  `SkippedOperandExits` says exactly when, for lists of any length.
* Errexit can overtake a `break`, which then stays pending in the stopped shell although no loop is
  left: `set -e; while true; do { ! break; }; done` (`NegatedBreakStaysPending`). `RunScript` says of
  every script exactly when, `JumpLeftExactly` at which lists, and `CalmScriptLeavesNoJump` names
  scripts that never do it.
* Errexit in a `;&` arm does not stop the arm after it from being begun, as in
  `set -e; case a in a) false ;& b) command ;; esac` (`FallthroughAfterErrexit`);
  `FallthroughOverrunsExactly` gives the condition.
* The status of an `exit` is replaced: `! exit 3`, `if exit 3; then :; fi` and
  `while exit 3; do :; done` all end the shell with 0 (`ExitUnderNegation`, `ExitInIfCondition`,
  `ExitInLoopCondition`, which give the status for every n).
* `break`, `continue`, `return` or `exit` as a non-final operand of a list, in an `if` condition or
  in a `;&` arm, and `exit 0` in a loop condition, do not stop what follows at once
  (`BreakBeforeOperandIsMisplaced`, `ExitAsLoopCondition`, with `RunScript`).
* The guard keeps its copies among the numbers that redirections may name. A list is undone after
  every body that leaves the needed copies alone if and only if each number that had been a target
  before it was chosen for a copy still holds that copy (`ListRestoresExactly`); `12>&- 3>a 12>b`
  fails it (`ReturningNumberSpoilsTheGuard`), and lists with targets below 10, or that name no target
  twice, never do. A source that holds one of the guard's copies at that moment is open although it
  was closed; the list has its left-to-right meaning if and only if there is none (`RunMeansExactly`).
  When a here-document's body cannot be written its pipe is abandoned, and may take the number of a
  target not yet reached (`AbandonedPipeOnATarget`, `FailedTargetsAreBackExactly`).
* In a child, a file opened in advance can be overwritten by an earlier action
  (`RawDescriptorOverwritten`), stay close-on-exec (`RawDescriptorStaysCloseOnExec`) or be copied by
  a source of that number; `ChildAgreesExactly` shows that nothing else goes wrong. A here-document's
  pipe has no close-on-exec mark and stays open in the program unless its number is redirected
  (`ExecutedExactly`).
* With descriptor 0 closed a pipeline of two or more commands loses an input (`InputLost`,
  `GivenInputLost`); with it open the plumbing is right.
* `OPTIND=1` alone does not restart `getopts` in the middle of a cluster
  (`ResettingOptindIsNotEnough`). A loop whose name operand is OPTIND or the saved index runs for ever
  exactly when it makes more calls than its operands have bytes (`RunsForeverExactly`,
  `ComesBackAtOnce`), as `getopts a OPTIND` does (`NamingOptindNeverEnds`,
  `NamingOptindGoesToAndFro`); with any other name every run ends sooner.
* `read` treats white space followed by another separator as two delimiters
  (`AgreesWithTheStandard`, `BlankThenColonSplitsTwice`).
* `printf` never returns when operands are given to a format without a conversion that takes them in
  turn (`ReturnsExactlyWhen`, `PlainTextWithAnOperandHangs`).

## Model

| member | source | states |
|---|---|---|
| Int64.Wrap | src/expand/arithmetic.rs:287-302 | wrapping arithmetic leaves a sum or product that fits in an i64 unchanged |
| Int64.TruncatingRange | src/expand/arithmetic.rs:304-330 | the remainder of two i64 values always fits; the quotient fits except for the minimum by -1 |
| Int64.TruncatingIdentity | src/expand/arithmetic.rs:304-330 | dividend = quotient * divisor + remainder, with the remainder smaller than the divisor |
| Decimal.AccumulateDigits | src/bstr.rs:134-147 | the checked accumulation loop yields the denoted number exactly when all bytes are digits and it fits |
| Decimal.ParseI64 | src/bstr.rs:120-147 | accepts an optional sign and digits whose magnitude fits an i64, and nothing else |
| Decimal.ParseHexI64 | src/bstr.rs:149-164 | accepts non-empty hexadecimal digits that fit an i64 |
| Decimal.ParseOctalI64 | src/bstr.rs:166-180 | accepts non-empty octal digits that fit an i64 |
| Decimal.NumeralDenotes | src/bstr.rs:224-241 | the formatted digits denote the number formatted |
| Decimal.U64HasTwentyDigits | src/bstr.rs:201-206 | no u64 needs more than 20 digits, so the 21-byte buffer has room for a sign |
| Decimal.I64Buf.FromU64 | src/bstr.rs:224-246 | the fixed buffer holds the shortest decimal text of the value, never indexed outside, with one byte to spare |
| Decimal.I64Buf.New | src/bstr.rs:208-221 | the buffer holds the signed decimal text of every i64, the minimum included |
| Decimal.ParseInvertsText | src/bstr.rs:120-147 | parsing the text of an i64 gives it back, except for the minimum, whose text is rejected |
| Decimal.ParseInvertsNumeral | src/bstr.rs:149-180 | octal and hexadecimal output parses back exactly when it is at most the maximum i64 |
| Decimal.PushDigits | src/bstr.rs:277-325 | appending digits low first and reversing appends the shortest numeral after what was there |
| Decimal.PushOctalPadded | src/bstr.rs:292-305 | resizing, moving and filling in place pads the octal numeral with zeros on the left |
| Decimal.DigitsAsWritten | src/bstr.rs:134-180 | the digits of each base in order, as written and as read, in either case |
| Decimal.NumeralsArePositional | src/bstr.rs:224-325 | the numeral of base times n plus d is the numeral of n followed by the digit d |
| ArithSyntax.AssignOpAt | src/expand/arithmetic.rs:83-107 | a recognised assignment operator lies inside the text |
| ArithSyntax.ParseAssignment | src/expand/arithmetic.rs:56-81 | a parse that succeeds has consumed a byte and stays inside the text; terminates on every text |
| ArithSyntax.ParseTernary | src/expand/arithmetic.rs:109-135 | the same for conditional expressions |
| ArithSyntax.ParseLevel | src/expand/arithmetic.rs:137-330 | the same for the ten levels of infix operators |
| ArithSyntax.ParseUnary | src/expand/arithmetic.rs:332-348 | the same for unary operators |
| ArithSyntax.ParsePrimary | src/expand/arithmetic.rs:350-366 | the same for parentheses, names and numbers |
| ArithSyntax.ParseNumber | src/expand/arithmetic.rs:368-404 | the same for hexadecimal, octal and decimal constants |
| ArithSpelling.OperatorIsRead | src/expand/arithmetic.rs:137-330 | an operator followed by a space is recognised at its own precedence level and at no other, and is no assignment |
| ArithSpelling.AssignmentIsRead | src/expand/arithmetic.rs:83-107 | each of the eleven assignment operators is recognised as itself |
| ArithSpelling.BeginsUnassigned | src/expand/arithmetic.rs:56-81 | the first name of an expression that is not an assignment is not taken for an assignment target |
| ArithSpelling.ReadsInfix | src/expand/arithmetic.rs:137-330 | operators of one level group to the left, and a right operand of the same level needs parentheses |
| ArithSpelling.SpellingReadsBack | src/expand/arithmetic.rs:6-404 | every tree written with the fewest parentheses parses to itself: precedence and associativity of all operators |
| ArithSpelling.ParsedIsWritable | src/expand/arithmetic.rs:56-404 | constants in a parsed tree are not negative, its names are names and its compound assignments exist |
| ArithSpelling.NormalFormKeepsTheTree | src/expand/arithmetic.rs:6-404 | rewriting any text that parses in normal form does not change its tree |
| ArithSemantics.EagerIsLazy | src/expand/arithmetic.rs:56-176 | one-pass evaluation succeeds iff lazy evaluation does and every omitted operand scans cleanly; then value and variables agree |
| ArithSemantics.OmittedOperandCanStopTheScan | src/expand/arithmetic.rs:137-156 | a disjunction whose left operand is true and whose right operand divides by zero is 1 lazily and an error in one pass |
| ArithSemantics.StoreThenResolve | src/expand/arithmetic.rs:72-76 | a stored value is read back unchanged, except the minimum i64, which is then an invalid value |
| ArithOperators.FailsExactly | src/expand/arithmetic.rs:304-330 | an operator fails iff it is a division by zero or of the minimum by -1 |
| ArithOperators.AdditionLaws | src/expand/arithmetic.rs:287-302 | addition has the unit 0, is commutative and associative, and adding 1 is the successor, the minimum after the maximum |
| ArithOperators.SubtractionUndoesAddition | src/expand/arithmetic.rs:287-302 | a - b + b and a + b - b are a for all i64 |
| ArithOperators.MultiplicationLaws | src/expand/arithmetic.rs:304-330 | multiplication is commutative, has the unit 1 and the zero 0, and distributes over addition |
| ArithOperators.DivisionLaws | src/expand/arithmetic.rs:304-330 | a is quotient times divisor plus remainder, in the integers and in the operators; the remainder is smaller than the divisor with the sign of a |
| ArithOperators.ComparisonLaws | src/expand/arithmetic.rs:226-260 | exactly one of less, equal and greater is 1; less is transitive and holds between a number and its successor; the others are their converses and negations |
| ArithOperators.BitLaws | src/expand/arithmetic.rs:178-224 | and plus or is the sum, exclusive or is their difference, with the units 0 and -1 and idempotence |
| ArithOperators.BitsAreIndependent | src/expand/arithmetic.rs:178-224 | the lowest bit of a result depends on the lowest bits alone, and the others are those of the shifted operands |
| ArithOperators.ShiftByOne | src/expand/arithmetic.rs:262-285 | a shift to the left by one doubles, to the right halves rounding down; by zero does nothing |
| ArithOperators.ShiftAgain | src/expand/arithmetic.rs:262-285 | a shift by n + 1 is a shift by n and then by one, up to 63 |
| ArithOperators.ShiftAround | src/expand/arithmetic.rs:262-285 | only the count modulo 64 matters, so a count of 64 does nothing |
| ArithOperators.UnaryLaws | src/expand/arithmetic.rs:332-348 | v plus -v is 0, the complement is -v less 1, and negation compares with 0 |
| ArithOperators.ConditionalTestsForNonZero | src/expand/arithmetic.rs:109-135 | a conditional takes its first arm when the test is not 0; negating the test swaps the arms |
| ArithOperators.LogicalOperatorsAreConditionals | src/expand/arithmetic.rs:137-176 | conjunction and disjunction are conditionals that give 0 or 1 |
| ArithOperators.AssignmentIsReadBack | src/expand/arithmetic.rs:56-81 | an assignment that succeeds is worth its operand, which the variable then holds, but for the minimum |
| ArithOperators.CompoundAssignmentSpelledOut | src/expand/arithmetic.rs:56-81 | a compound assignment is the operator applied to the variable and then a plain assignment |
| ArithOperators.OnlyTargetsChange | src/expand/arithmetic.rs:56-81 | no expression changes a variable that it does not assign or that is readonly, and none unsets one |
| ArithOperators.UnsetReadsAsEmpty | src/expand/arithmetic.rs:427-440 | an unset variable reads as an empty one does, which is 0, iff nounset is off |
| ArithOperators.NounsetOnlyStops | src/expand/arithmetic.rs:427-440 | for every expression, nounset changes nothing or stops it with its own error, which never appears without it |
| ArithWritten.OctalConstant | src/expand/arithmetic.rs:368-404 | 0 and the octal numeral of n parse to n, or to an error if n does not fit |
| ArithWritten.HexConstant | src/expand/arithmetic.rs:368-404 | 0x or 0X and the hexadecimal numeral of n, each letter in either case, parse to n, or to an error if n does not fit |
| ArithWritten.TrimStrips | src/expand/arithmetic.rs:496-503 | trimming takes all white space at both ends and nothing else |
| ArithWritten.OctalVariable | src/expand/arithmetic.rs:441-456 | a variable that holds an octal constant, with white space around it, is read as the number if it fits |
| ArithWritten.HexVariable | src/expand/arithmetic.rs:441-456 | the same for hexadecimal constants in either case |
| ArithWritten.OperatorsAsWritten | src/expand/arithmetic.rs:178-330 | the bytes of each arithmetic, shift and bitwise operator between any two constants |
| ArithWritten.ComparisonsAsWritten | src/expand/arithmetic.rs:137-260 | the same for comparisons, conjunction and disjunction |
| ArithWritten.UnaryAndConditionalAsWritten | src/expand/arithmetic.rs:109-135 | the same for unary operators and the conditional |
| ArithWritten.AssignmentsAsWritten | src/expand/arithmetic.rs:83-107 | the same for the eleven assignment operators and any name |
| ArithWritten.Groups | src/expand/arithmetic.rs:137-330 | of any two infix operators in a row, the second takes the operand between them iff its level is tighter |
| ArithWritten.PrecedenceAsWritten | src/expand/arithmetic.rs:137-330 | the ten levels in order, from texts written out |
| ArithWritten.GroupingAsWritten | src/expand/arithmetic.rs:262-330 | operators of one level group to the left, from texts written out |
| ArithWritten.ComparisonsGroupAsWritten | src/expand/arithmetic.rs:226-260 | the same for comparisons |
| ArithErrors.ExtraParenthesis | src/expand/arithmetic.rs:6-17 | any expression, then a closing parenthesis and any text, is an error for trailing text |
| ArithErrors.ExtraColon | src/expand/arithmetic.rs:6-17 | the same with a colon |
| ArithErrors.MissingOperator | src/expand/arithmetic.rs:6-17 | any expression and then any operand is an error for trailing text |
| ArithErrors.MissingParenthesis | src/expand/arithmetic.rs:350-366 | an opening parenthesis and any expression is an error for the parenthesis |
| ArithErrors.MissingColon | src/expand/arithmetic.rs:109-135 | any test, a question mark and any expression is an error for the colon |
| ArithErrors.NothingIsAnError | src/expand/arithmetic.rs:368-404 | a text of white space alone is an error for the operand |
| ArithErrors.MissingOperand | src/expand/arithmetic.rs:137-330 | any infix operator after any operand, with nothing behind it, is an error for the operand |
| ArithEvaluator.LoopTurn | src/expand/arithmetic.rs:137-330 | one turn of an operator loop is one left-associative step of the parser and of the tree's meaning |
| ArithEvaluator.ArithmeticParser.ParseAssignmentExpr | src/expand/arithmetic.rs:56-81 | yields the one-pass meaning of the tree parsed there, or an error with the writes of what was read; skipped, it writes no variable even on error; skip depth is restored on success |
| ArithEvaluator.ArithmeticParser.ParseTernaryExpr | src/expand/arithmetic.rs:109-135 | the same for conditionals, whose unselected arm is skipped |
| ArithEvaluator.ArithmeticParser.ParseLogicalOr | src/expand/arithmetic.rs:137-156 | the same for a chain of disjunctions, skipping operands once the value is decided |
| ArithEvaluator.ArithmeticParser.ParseLogicalAnd | src/expand/arithmetic.rs:158-176 | the same for a chain of conjunctions |
| ArithEvaluator.ArithmeticParser.ParseOperators | src/expand/arithmetic.rs:178-330 | the same for the eight methods from bitwise or down to multiplication |
| ArithEvaluator.ArithmeticParser.ParseUnary | src/expand/arithmetic.rs:332-348 | the same for unary operators |
| ArithEvaluator.ArithmeticParser.ParsePrimaryExpr | src/expand/arithmetic.rs:350-366 | the same for primary expressions |
| ArithEvaluator.ArithmeticParser.ParseNumberLiteral | src/expand/arithmetic.rs:368-404 | the same for constants |
| ArithEvaluator.ArithmeticParser.TryScanName | src/expand/arithmetic.rs:406-425 | takes the longest name at the cursor, or nothing |
| ArithEvaluator.ArithmeticParser.TryConsumeAssignOp | src/expand/arithmetic.rs:83-107 | takes the assignment operator at the cursor, or nothing |
| ArithEvaluator.ArithmeticParser.TryConsumeInfix | src/expand/arithmetic.rs:178-330 | takes an operator of the level at the cursor, or nothing |
| ArithEvaluator.ArithmeticParser.ResolveVar | src/expand/arithmetic.rs:427-457 | reads a variable as decimal, octal or hexadecimal, empty and unset as 0 unless nounset |
| ArithEvaluator.EvalArithmetic | src/expand/arithmetic.rs:6-17 | on every text that parses, exactly the one-pass value, error and variables of its tree; on any other, an error and the variables that the tree of the part read before it leaves |
| FlowProgram.LoopCount | src/builtin/flow.rs:44-76 | an accepted level operand is at least 1 |
| FlowStructured.TargetOf | src/builtin/flow.rs:25-42 | `break n` names the min(n, depth)-th enclosing loop, which exists |
| FlowShell.Shell.ExecuteProgram | src/exec/program.rs:10-21 | refines the structured program, or has begun more after a misplaced transfer; depths kept, pending control in bounds while the shell runs and exactly what errexit overtook once it has stopped, errexit never fires when suppressed |
| FlowShell.Shell.CheckErrexit | src/exec/program.rs:23-28 | stops the shell iff the status is not zero, errexit is on and not suppressed, and changes nothing otherwise |
| FlowShell.Shell.ExecuteAndOr | src/exec/and_or.rs:22-58 | refines the structured list, short-circuit and errexit check included; the suppression flag is restored |
| FlowShell.Shell.ExecuteOperands | src/exec/and_or.rs:37-51 | the loop over operands means the structured list before its errexit check, or has run past a misplaced transfer |
| FlowShell.Shell.ExecuteOperand | src/exec/and_or.rs:39-50 | one operand is run or skipped by the status so far; only the last has the outer suppression |
| FlowShell.Shell.ExecutePipeline | src/exec/pipeline.rs:32-49 | refines a single-command pipeline and its negation, which suppresses errexit |
| FlowShell.Shell.ExecuteCommand | src/exec/command.rs:28-76 | refines every form of command but function definitions |
| FlowShell.Shell.ExecuteRedirected | src/exec/command.rs:79-96 | refines a compound command with redirections: an error if they cannot be expanded, a status if they cannot be applied, else the command |
| FlowShell.Shell.ExecuteCall | src/exec/simple.rs:470-495 | a function call ends a pending return with its value and keeps every other outcome |
| FlowShell.Shell.ExecuteCondition | src/exec/command.rs:99-102 | a condition runs suppressed, and the flag is restored when it succeeds |
| FlowShell.Shell.ExecuteIf | src/exec/command.rs:98-121 | refines the structured conditional; conditions run suppressed |
| FlowShell.Shell.ExecuteElifs | src/exec/command.rs:107-114 | refines the chain of further branches |
| FlowShell.Shell.TakePending | src/exec/command.rs:136-160 | one loop level is taken off a pending break or continue; a pending return leaves the loop |
| FlowShell.Shell.ExecuteLoop | src/exec/command.rs:123-192 | refines the structured loop: a jump acts on exactly its target loop; loop depth is restored on success and on error |
| FlowShell.Shell.LoopTurn | src/exec/command.rs:129-188 | one turn, condition and body, refines one turn of the structured loop |
| FlowShell.Shell.ExecuteFor | src/exec/command.rs:194-240 | refines the structured for loop; loop depth is restored on success and on error |
| FlowShell.Shell.ExecuteCase | src/exec/command.rs:242-270 | refines the structured case with its fall-through arms |
| FlowShell.Shell.Apply | src/exec/simple.rs:163-173 | a simple command's event sets the flags that encode its structured outcome |
| FlowShell.Shell.RaiseReturn | src/builtin/flow.rs:6-23 | an error outside a function or with a bad operand, else a pending return |
| FlowShell.Shell.RaiseJump | src/builtin/flow.rs:25-42 | an error outside a loop or with a bad operand, else a pending jump within the loop depth |
| FlowTheorems.MoreFuelProgram | src/exec/command.rs:123-240 | a run that ends has the same outcome with any larger bound on its turns |
| FlowTheorems.PlacedRuns | src/exec/command.rs:98-301 | a program that raises control only where the interpreter tests for it, its functions within the powers given for them and its `;&` arms where errexit cannot fire, never misplaces it; it transfers control only as its commands may, errexit aside |
| FlowTheorems.RunScript | src/exec/program.rs:10-21 | every script ends with the structured status, running with nothing pending iff it did not exit, and with exactly the transfer that errexit overtook pending if it did, unless control was misplaced; a break or continue is left pending iff errexit stopped the running shell while one was pending; the shell begins more than the structured run iff control was misplaced, and in a well placed script it never is |
| FlowTheorems.JumpLeftExactly | src/exec/program.rs:23-28 | a list leaves a break or continue pending in a stopped shell iff something inside it has, or errexit fires on the failing status of a jump |
| FlowTheorems.CalmScriptLeavesNoJump | src/exec/command.rs:123-192 | a script without jumps under negations and in loop conditions never ends with a break or continue pending |
| FlowTheorems.NegatedBreakStaysPending | src/exec/command.rs:166-169 | a negated break in a group in a loop, under errexit, leaves the break pending |
| FlowTheorems.LastOperand | src/exec/and_or.rs:37-51 | a list of any length is its last operand after the others, which run suppressed |
| FlowTheorems.SkippedOperandExits | src/exec/and_or.rs:53-56 | a list of any length whose last operand was skipped ends the shell iff its last pipeline is not negated, the status is not zero, errexit is on and not suppressed |
| FlowTheorems.ErrexitFiresAfterShortCircuit | src/exec/and_or.rs:53-56 | under errexit, a false first operand of `&&` ends the shell although the last operand never ran |
| FlowTheorems.BreakBeforeOperandIsMisplaced | src/exec/and_or.rs:46-50 | a break before `&&` in a loop is misplaced: the operand is begun |
| FlowTheorems.FallthroughOverrunsExactly | src/exec/command.rs:261-268 | a `;&` arm of one list that comes to a status is followed by the next arm in a stopped shell iff errexit fires at the end of the list |
| FlowTheorems.FallthroughAfterErrexit | src/exec/command.rs:261-268 | the command of the next arm is begun after the stop iff the first arm's command fails, errexit is on and not suppressed |
| FlowTheorems.ExitUnderNegation | src/exec/pipeline.rs:32-49 | an exit under a negation ends the shell with the inverted status, never its own |
| FlowTheorems.ExitInIfCondition | src/exec/command.rs:98-121 | an exit in an `if` condition is misplaced if a branch is left to begin, and ends the shell with 0 otherwise |
| FlowTheorems.ExitInLoopCondition | src/exec/command.rs:129-165 | an exit in a loop condition is misplaced if the body is to run, and ends the shell with the latest body's status otherwise |
| FlowTheorems.ExitAsLoopCondition | src/exec/command.rs:129-165 | `while exit n` begins the body for n = 0, and ends the shell with 0 for any other n |
| FlowPrograms.SequenceGoesOn | src/exec/program.rs:10-28 | after a command the next item runs, unless it failed and errexit ends the shell |
| FlowPrograms.ExitEndsTheSequence | src/exec/program.rs:10-21 | after `exit n` no item runs, and the status is n |
| FlowPrograms.SetErrexitDecides | src/exec/program.rs:23-28 | the command after `set -e` ends the shell when it fails, the one after `set +e` does not |
| FlowPrograms.ListChooses | src/exec/and_or.rs:37-51 | `a && b` runs b iff a succeeds and the other operator iff a fails; the status is that of what ran last |
| FlowPrograms.NegationInverts | src/exec/pipeline.rs:32-49 | a negation makes 1 of 0 and 0 of anything else |
| FlowPrograms.IfChooses | src/exec/command.rs:98-121 | the first branch runs iff the condition succeeds; without another the status is 0 |
| FlowPrograms.ElifIsAnotherIf | src/exec/command.rs:107-114 | after a condition that fails, an elif with any condition is an if of its own |
| FlowPrograms.RefusedIsNotBegun | src/exec/command.rs:79-96 | a compound command whose redirections cannot be applied has their status and is not begun |
| FlowPrograms.CaseTakesTheFirstMatch | src/exec/command.rs:242-270 | the first arm that matches runs and no other; the status is 0 when none matches |
| FlowPrograms.FallThroughTakesTheNext | src/exec/command.rs:261-268 | after a matching arm that ends with `;&` the next one runs without a pattern being tried |
| FlowPrograms.CallReturns | src/exec/simple.rs:470-495 | `return n` is the status of the call, without an operand that of the command before it |
| FlowPrograms.LoopTests | src/exec/command.rs:123-192 | `while` takes a turn iff its condition succeeds, `until` iff it fails |
| FlowPrograms.JumpEndsTheBody | src/builtin/flow.rs:25-42 | nothing after `break` or `continue` in a body runs |
| FlowPrograms.ContinueTakesEveryWord | src/exec/command.rs:194-240 | a for loop over any number of words whose body begins with `continue` takes every word, runs nothing after it and ends normally |
| FlowPrograms.BreakTakesOneWord | src/exec/command.rs:194-240 | one whose body begins with `break` ends normally after the first word |
| FlowPrograms.JumpGoes | src/exec/command.rs:136-160 | a jump on its way through the enclosing loops leaves exactly those inside its target, which it leaves or turns again |
| FlowPrograms.JumpLevels | src/builtin/flow.rs:25-42 | of d loops `break k` leaves min(k, d); `continue k` leaves one fewer and the next takes another turn |
| FlowPrograms.LevelOperand | src/builtin/flow.rs:44-76 | the operand is the number of levels, 1 without one; 0 and a second operand are errors |
| FdKernel.LowestFree | src/exec/redirection.rs:224-244 | the descriptor allocated is free, at least the bound, and all between are in use |
| FdRedirection.WhatOpeningDoes | src/exec/redirection.rs:246-325 | for every kind and every file system: only `>` and the clobbering form empty a regular file, `>` not under noclobber; all but `<` create a missing file; no other file changes |
| FdRedirection.WhatIsOpened | src/exec/redirection.rs:268-325 | `<` opens to read, `<>` to read and write, the others to write, `>>` at the end |
| FdRedirection.RedirectionMeans | src/exec/redirection.rs:314-322 | the operand `-` closes the target, the numeral of n copies n onto it iff n is open, and a file takes its place |
| FdRedirection.OpenFor | src/exec/redirection.rs:268-313 | the file or here-document is opened on the lowest free number iff it is not refused and nothing goes wrong, and the files are then those after opening |
| FdRedirection.OpenHereDoc | src/exec/redirection.rs:301-307 | the read end of a new pipe on the lowest free number iff nothing goes wrong; a failure leaves the table or abandons the pipe |
| FdRedirection.MeaningChangesTargets | src/exec/redirection.rs:214-335 | the left-to-right meaning of a list leaves every other descriptor alone |
| FdRedirection.ReplaceShellFd | src/exec/redirection.rs:327-335 | the target becomes the given description, and the source number is freed unless it is the target |
| FdRedirection.OpenForWriteNoclobber | src/exec/redirection.rs:246-266 | fails with EEXIST on a regular file and leaves table and files as they were; otherwise opens unless something goes wrong: by exclusive creation if the path does not exist, for writing if it does |
| FdRedirection.ApplyShellRedirection | src/exec/redirection.rs:268-325 | succeeds iff the redirection has a meaning, is not refused and nothing goes wrong, with exactly that meaning and the files it creates; a failure leaves the old table there, and is a bad descriptor iff a closed one is copied |
| FdGuard.DropGuard | src/exec/redirection.rs:193-211 | replays the saved list backwards, dup2 and close or close, entry by entry |
| FdGuard.StepIsConsistent | src/exec/redirection.rs:224-244 | each redirection keeps the guard's invariant: targets saved once, what was saved traced to the original table, private copies intact while no target has their number |
| FdGuard.RunIsConsistent | src/exec/redirection.rs:214-244 | so every list, of any targets and sources, reaches only consistent states |
| FdGuard.CopyIsThere | src/exec/redirection.rs:193-211 | when the copies hold, each entry finds its copy when its turn in the replay comes |
| FdGuard.CopiesHoldRestores | src/exec/redirection.rs:193-211 | then every target is back, every copy is closed, and the rest is as the body left it |
| FdGuard.LostCopyShows | src/exec/redirection.rs:193-211 | a copy lost when its turn comes leaves some target unrestored |
| FdGuard.OtherwiseLost | src/exec/redirection.rs:193-211 | when the copies do not hold, some body that leaves the needed copies alone ends with a target unrestored |
| FdGuard.ListRestoresExactly | src/exec/redirection.rs:193-244 | for every list: the targets come back after every body that leaves the needed copies alone iff each number that was a target before it was chosen for a copy still holds it |
| FdCommand.NoneReturnsKeepsCopies | src/exec/redirection.rs:224-244 | the copies hold if no redirection names again a number that was a target and was then chosen for a copy |
| FdCommand.LostStaysLost | src/exec/redirection.rs:224-244 | a reused copy that is lost stays lost unless its number is redirected again |
| FdCommand.OnceEachNeverReturns | src/exec/redirection.rs:224-244 | a list that names no target twice has no such redirection, whatever its numbers |
| FdCommand.LowTargetsNeverReturn | src/exec/redirection.rs:224-244 | nor has a list whose targets are below 10, whatever its sources |
| FdCommand.RunMeansExactly | src/exec/redirection.rs:214-244 | after every prefix the shell has the list's left-to-right meaning, copies aside, iff no source is a number that holds one of the guard's copies when it is used |
| FdCommand.LowSourcesMean | src/exec/redirection.rs:214-244 | so a list whose sources are below 10 always has its meaning, whatever its targets |
| FdCommand.SaveAndApply | src/exec/redirection.rs:230-241 | one turn: the target is saved once, and it succeeds iff the redirection can take effect, is not refused and nothing goes wrong |
| FdCommand.ApplyShellRedirections | src/exec/redirection.rs:214-244 | any list: success reaches the state of the run, with the files that the list opens, and returns its saved list; it fails only at a redirection that is refused, copies a closed descriptor or meets a fault, and then replays the saved list on the state it stopped in |
| FdCommand.FailureRecovers | src/exec/redirection.rs:193-244 | after a failure every target reached is open on its old description or closed as it was, and everything else is as it was but for the ends of a here-document's abandoned pipe |
| FdCommand.FailedTargetsAreBackExactly | src/exec/redirection.rs:193-244 | all targets of the list are back iff no end of the abandoned pipe is on one not yet reached; if what failed is no here-document, every descriptor is back |
| FdCommand.AbandonedPipeOnATarget | src/exec/redirection.rs:302-308 | `3<<E 4>f` whose body cannot be written closes 3 again and leaves the pipe's write end as 4 |
| FdCommand.ExecuteRedirected | src/exec/command.rs:79-96 | with targets below 10, or each named once, the copies hold; then every target ends as it began after any body that leaves the copies alone, private descriptors too, and a body that changes nothing leaves the table as it was, less close-on-exec marks on targets; a list that fails part-way puts back every target it reached |
| FdCommand.ClearedIsUnchanged | src/exec/redirection.rs:193-211 | the table is entirely unchanged iff no redirected descriptor was open with close-on-exec |
| FdCommand.ReturningNumberSpoilsTheGuard | src/exec/redirection.rs:193-244 | the run of `12>&- 3>a 12>b` and its replay leave 3 with the file b |
| FdChild.PrepareRedirections | src/exec/redirection.rs:68-153 | every opened file is a new description on its own new descriptor of the parent, one action per redirection; it fails iff one is refused or meets a fault, and the old table is then still there |
| FdChild.ApplyChildFdActions | src/exec/redirection.rs:155-177 | succeeds exactly when every action does, with their combined effect |
| FdChild.InOrderAgrees | src/exec/redirection.rs:68-177 | a redirection in order keeps the child in agreement with the left-to-right meaning |
| FdChild.OutOfOrderDisagrees | src/exec/redirection.rs:68-177 | a redirection out of order ends the agreement |
| FdChild.ChildAgreesExactly | src/exec/redirection.rs:68-177 | the child agrees with the meaning after every prefix of the list iff no file's raw number is overwritten before the file is moved, moved onto itself marked close-on-exec, or copied before it is redirected |
| FdChild.ExecutedExactly | src/exec/redirection.rs:102-112 | the program of an ordered list starts with exactly what the list means iff every here-document's raw number is a target |
| FdChild.CopiesDoNotLeak | src/exec/redirection.rs:224-244 | a program run under a redirected compound command whose sources hold no copies starts with exactly what the list means: no copy of the guard survives exec |
| FdChild.PathsAgree | src/exec/redirection.rs:55-335 | an ordered list whose sources hold no copies gives the child and the shell the same descriptors, copies and left-over raw numbers aside |
| FdChild.CloseParentRedirectionFds | src/exec/redirection.rs:55-66 | closing the raw descriptors gives the parent its exact table back |
| FdChild.RawDescriptorOverwritten | src/exec/redirection.rs:155-177 | `3>&1 4>file` in a child makes 4 a copy of 1 |
| FdChild.RawDescriptorMovedInTime | src/exec/redirection.rs:155-177 | `4>file 3>&1` is in order although the file is opened as 3 |
| FdChild.RawDescriptorStaysCloseOnExec | src/exec/redirection.rs:155-177 | `3>file` in a child leaves 3 marked close-on-exec, so the program starts without it |
| FdPipeline.SetUpChild | src/exec/pipeline.rs:180-196 | the child's input and output descriptors end in place and the pipe ends it does not use are closed |
| FdPipeline.ForkAndExecuteCommand | src/exec/pipeline.rs:163-222 | succeeds iff no fault meets it; then the exact tables of parent and child and the child's process group, otherwise the old table, or that and the new pipe |
| FdPipeline.ChildIsPlumbed | src/exec/pipeline.rs:163-222 | with descriptor 0 open, a child holds its pipe ends as 0 and 1 and nothing else of the plumbing, and the parent only the next read end |
| FdPipeline.InputLost | src/exec/pipeline.rs:180-196 | with descriptor 0 closed, the reader of the first pipe starts without input |
| FdPipeline.GivenInputLost | src/exec/pipeline.rs:180-196 | with descriptor 0 closed, a first command that is given an input and writes to a pipe starts without it |
| FdPipeline.ParentIsBack | src/exec/pipeline.rs:203-222 | the parent keeps only the next read end, whether descriptor 0 is open or not |
| FdPipeline.SpawnPipeline | src/exec/pipeline.rs:224-259 | succeeds iff no fault meets it: n children in the first one's group, the parent's table back to what it was; with descriptor 0 open every child has exactly its two pipe ends, and with it closed some child of two or more lacks its input; on failure only the given input and new pipe ends are left open |
| FdPipeline.PipeHolders | src/exec/pipeline.rs:224-259 | the write end of pipe i is held by child i as 1 only, its read end by child i+1 as 0 only |
| FdPipeline.WaitForChildren | src/exec/pipeline.rs:275-327 | the status is the last child's, 128 and the signal if one ended it; the pipefail status is the rightmost non-zero one |
| Hash.BlockInjective | src/hash.rs:75-87 | different 8-byte blocks are different words |
| Hash.TailInjective | src/hash.rs:130-143 | different tails of the same length are different words, although the reads overlap |
| Hash.MixInjective | src/hash.rs:58-61 | mixing is injective in the state for a word, and in the word for a state |
| Hash.FinishInjective | src/hash.rs:90-98 | the finaliser is injective in the state |
| Hash.ShellHasher.Write | src/hash.rs:75-88 | absorbs the bytes block by block and counts them |
| Hash.AbsorbInjectiveInState | src/hash.rs:75-88 | different states stay different whatever they absorb |
| Hash.OneBlockChangesState | src/hash.rs:75-88 | keys of one length that differ in one block or in the tail lead to different states |
| Hash.OneBlockNeverCollides | src/hash.rs:56-98 | keys of one length, any length, that differ in exactly one block or the tail never collide |
| Hash.ShortKeysNeverCollide | src/hash.rs:75-143 | keys of one length up to eight bytes never collide |
| Hash.LengthIsFoldedIn | src/hash.rs:90-98 | one state finished with two lengths gives two values |
| Hash.TrailingZeroIsCounted | src/hash.rs:121-143 | a zero byte after a tail of four to six bytes leaves the state as it was, so keys like `PATH` and `PATH` with a zero byte differ by the count alone, and they do differ |
| Hash.EmptyKey | src/hash.rs:90-98 | the value for the empty key |
| Hash.KnownTail | src/hash.rs:130-143 | the value for `PATH`, a tail |
| Hash.KnownBlock | src/hash.rs:75-88 | the value for `HOSTNAME`, one block |
| Hash.HashKey | src/hash.rs:63-98 | a new hasher's value for one key |
| Getopts.FindOptInOptstring | src/builtin/getopts.rs:6-21 | the first position of the letter, never a colon |
| Getopts.LookupAtFirst | src/builtin/getopts.rs:114-116 | the letter takes an argument iff a colon follows its first position |
| Getopts.Shell.MoveTo | src/builtin/getopts.rs:151-160 | the saved position is written in the order of the source, up to the first refused write |
| Getopts.Shell.EndOfOptions | src/builtin/getopts.rs:78-105 | the exits that report the end of the options |
| Getopts.Shell.MissingArgument | src/builtin/getopts.rs:129-148 | an option whose argument is missing, silent or not |
| Getopts.Shell.UndeclaredOption | src/builtin/getopts.rs:164-188 | an option that is not declared, silent or not |
| Getopts.Shell.Letter | src/builtin/getopts.rs:108-189 | one option character: attached, separate, missing or no argument, undeclared; a position past the operand crashes |
| Getopts.Shell.GetoptsInner | src/builtin/getopts.rs:69-190 | every call writes exactly the variables the turn calls for, in order, with readonly variables stopping it at status 2 |
| Getopts.Shell.Getopts | src/builtin/getopts.rs:33-67 | usage error below three words; otherwise the call on the operands or the positional parameters |
| Getopts.TurnAdvances | src/builtin/getopts.rs:108-189 | a call that returns 0 moves (OPTIND, index) strictly forward, keeps the index inside its operand and never crashes |
| Getopts.CallMoves | src/builtin/getopts.rs:69-190 | for every name operand and whatever is readonly, a call that returns 0 moves to the turn's position, save what assigning OPTIND or the saved index changes |
| Getopts.AcceptedCallAdvances | src/builtin/getopts.rs:69-190 | with a name other than these, a call that returns 0 moves strictly forward and stays inside its operand, whatever is readonly |
| Getopts.EveryRunEnds | src/builtin/getopts.rs:33-190 | with a name other than OPTIND or the saved index every run ends, within as many calls as the operands have bytes, from any values of the variables and whatever is readonly |
| Getopts.RunsForeverExactly | src/builtin/getopts.rs:33-190 | with nothing readonly and any name, a run never ends iff it comes back to a position, and iff more calls succeed than the operands have bytes |
| Getopts.ComesBackAtOnce | src/builtin/getopts.rs:151-163 | with OPTIND or the saved index as the name, a call returns to its own position iff it found a declared option and the letter, read as a number, is the index that was there: OPTIND with the operand finished, the saved index with it unfinished |
| Getopts.CallMeansTurn | src/builtin/getopts.rs:69-190 | after a call the variables hold the report and the new position, and no others change |
| Getopts.TurnPeels | src/builtin/getopts.rs:69-190 | one call takes one report off the left-to-right decoding, or ends where it ends |
| Getopts.SessionIsDecode | src/builtin/getopts.rs:33-190 | with an ordinary name and nothing readonly, the reports of a run are those of one left-to-right decoding, and OPTIND ends at the first operand |
| Getopts.FreshRunIsDecode | src/builtin/getopts.rs:33-190 | a run that starts with OPTIND 1 reports the decoding of all operands, and OPTIND ends at the first one left |
| Getopts.SpelledOptionsReadBack | src/builtin/getopts.rs:108-163 | options spelled bare, attached or separate decode to what was meant, and what follows `--` is left alone |
| Getopts.LeadingColonIsSilent | src/builtin/getopts.rs:43-48 | a leading colon asks for silence and declares nothing |
| Getopts.DeclaredLetters | src/builtin/getopts.rs:6-21 | a letter of the option string takes an argument iff a colon follows it; others and the colon are undeclared |
| Getopts.BadOptionsAsReported | src/builtin/getopts.rs:129-188 | in silence an undeclared option is reported as `?` and a missing argument as `:`, with the letter in OPTARG; otherwise both as `?` with OPTARG unset |
| Getopts.ClustersComeApart | src/builtin/getopts.rs:108-163 | a flag in front of a cluster is reported, and the rest is decoded as a cluster |
| Getopts.OperandsEndTheOptions | src/builtin/getopts.rs:78-105 | the first word without a minus sign, or that is only one, is the first operand, and so is the word after `--` |
| Getopts.CrashesExactlyWhenStale | src/builtin/getopts.rs:108-111 | a call crashes iff the saved index is positive and past its operand |
| Getopts.ResettingOptindIsNotEnough | src/builtin/getopts.rs:56-61 | OPTIND=1 in the middle of a cluster can make the next call crash |
| Getopts.NamingOptindNeverEnds | src/builtin/getopts.rs:151-163 | `getopts a OPTIND` on `-a` runs for ever |
| Getopts.NamingOptindGoesToAndFro | src/builtin/getopts.rs:151-163 | `getopts 2a OPTIND` on `-2 -a` runs for ever in a cycle of two positions |
| ReadLine.FirstRun | src/builtin/read.rs:245-261 | the first piece is the longest run of bytes with one quoting |
| ReadLine.PiecesAreUnique | src/builtin/read.rs:245-261 | non-empty pieces that alternate in quoting are determined by their bytes |
| ReadLine.ReadCursor.Fill | src/builtin/read.rs:163-170 | one read of any size fills an empty buffer; the logical position is kept |
| ReadLine.ReadCursor.NextByte | src/builtin/read.rs:158-181 | buffered or not, the next byte of the file at the logical position, end of file, or an error |
| ReadLine.ReadCursor.Drop | src/builtin/read.rs:184-196 | the file offset becomes the logical position |
| ReadLine.PushReadPiece | src/builtin/read.rs:245-261 | appends to the bytes and keeps the pieces non-empty and alternating |
| ReadLine.ReadEscape | src/builtin/read.rs:213-232 | a backslash and the byte after it, as the reference decodes them |
| ReadLine.ReadTurn | src/builtin/read.rs:208-242 | one turn of the loop is one step of the reference |
| ReadLine.ReadLogicalLine | src/builtin/read.rs:198-243 | for all transfer sizes, seekable or not: the reference line, canonical pieces, and the offset just after it; an error only if a read failed |
| ReadLine.ResultIsDetermined | src/builtin/read.rs:135-243 | the buffered and the one-byte reader return the same pieces and leave the same offset |
| ReadLine.LineIgnoresTheRest | src/builtin/read.rs:198-243 | a line ended by its delimiter does not depend on what follows |
| ReadLine.RawLineIsVerbatim | src/builtin/read.rs:233-241 | with -r the line is the input up to the first delimiter, none of it quoted |
| ReadLine.LinesRebuildTheFile | src/builtin/read.rs:198-243 | the raw lines of repeated reads, with their endings, are the file |
| ReadLine.EscapedTextIsQuoted | src/builtin/read.rs:213-232 | text without newline or delimiter, each byte behind a backslash, is read as that text, all quoted |
| ReadLine.LinesAreJoined | src/builtin/read.rs:213-241 | after any bytes that mean themselves, a backslash before a newline or the delimiter joins the line to the next, and the delimiter ends it |
| ReadSplit.FindReadIfsAt | src/builtin/read.rs:284-291 | the first IFS sequence that starts the text |
| ReadSplit.UnquotedTailAt | src/builtin/read.rs:368-377 | the unquoted bytes from a position on |
| ReadSplit.SkipReadIfsWs | src/builtin/read.rs:379-388 | skips exactly the leading unquoted IFS white space |
| ReadSplit.TrimReadIfsWs | src/builtin/read.rs:390-419 | drops IFS white space at both ends |
| ReadSplit.TakeField | src/builtin/read.rs:318-342 | one field and its separator; the source's assertion about white space never fails |
| ReadSplit.SplitReadAssignments | src/builtin/read.rs:293-348 | the reference split for any list of IFS sequences and number of variables |
| ReadSplit.ReadValues | src/builtin/read.rs:49-66 | input and splitting together |
| ReadSplit.SplitLosesOnlySeparators | src/builtin/read.rs:293-348 | one value per variable; together they are the bytes in order less only unquoted IFS bytes |
| ReadSplit.AgreesWithTheStandard | src/builtin/read.rs:318-342 | splits as section 2.6.5 of XCU for every number of variables iff no white-space separator is followed by another kind |
| ReadSplit.BlankThenColonSplitsTwice | src/builtin/read.rs:318-342 | with IFS=' :' the line `a : b` gives an empty second value |
| ReadSplit.QuotedIsNotSplit | src/builtin/read.rs:324-328 | quoted bytes are never separators |
| ReadSplit.EscapedTextReadsBack | src/builtin/read.rs:198-348 | text without newline, each byte behind a backslash, is read back whole whatever IFS is |
| ReadSplit.RawLineWithoutIfsIsVerbatim | src/builtin/read.rs:302-306 | `IFS= read -r v` stores the line as it stands |
| Printf.ScanOctal | src/builtin/printf.rs:289-299 | up to three octal digits, wrapped to a byte |
| Printf.PrintfFormatEscape | src/builtin/printf.rs:276-302 | an escape of the format, with the bytes it takes, inside the format |
| Printf.PrintfExpandB | src/builtin/printf.rs:304-372 | the expansion of a %b operand and whether `\c` cut it |
| Printf.ScanConversion | src/builtin/printf.rs:170-206 | number, flags, width and precision of one conversion, or the rest of the format as text |
| Printf.PrintfFormat | src/builtin/printf.rs:141-270 | one pass over the tokens of the format, stopped by `\c`; stop iff cut or no operand is left |
| Printf.PrintfBuiltin | src/builtin/printf.rs:7-37 | the passes of the driver, as many as are watched; its assertion never fails |
| Printf.ReturnsExactlyWhen | src/builtin/printf.rs:19-35 | the driver ends iff a conversion takes operands in turn, or there is none, or `\c` stops the first pass |
| Printf.PlainTextWithAnOperandHangs | src/builtin/printf.rs:19-35 | `printf hi a` never ends |
| Printf.PassCountIsCeiling | src/builtin/printf.rs:19-35 | the number of passes is max(1, ceil(n / c)) |
| Printf.HandedInOrder | src/builtin/printf.rs:208-215 | stopped or not, a run hands out the operands in order, each once, then empty ones |
| Printf.PassesAreCounted | src/builtin/printf.rs:19-35 | a run not stopped by `\c` makes exactly that many passes, and no run makes more |
| Printf.EveryOperandReachesOneConversion | src/builtin/printf.rs:7-51 | with c >= 1 the driver ends, and unless stopped every operand reaches exactly one conversion in turn |
| PrintfText.OperandReadsBack | src/builtin/printf.rs:304-372 | any text, its bytes 7 to 13 and the backslash written as escapes, is expanded to itself by %b, and a `\c` after it stops the output there |
| PrintfText.FormatReadsBack | src/builtin/printf.rs:141-168 | any text written as a format, percent signs doubled, is printed as it is |
| PrintfText.OctalEscapes | src/builtin/printf.rs:276-302 | three octal digits are the byte they denote modulo 256, in a format and after 0 in a %b operand |
| PrintfText.NumberedOperand | src/builtin/printf.rs:170-215 | `%k$s` gets the k-th operand of its round for every k, an empty one beyond the last; k = 0 takes the next in turn |
| PrintfText.SpecIsWhole | src/builtin/printf.rs:170-206 | flags, a width and a precision before the letter all belong to its conversion, which takes the next operand in turn |
| LogicalPath.CanonicalizeLogicalPath | src/builtin/cd.rs:66-88 | the pushing and popping loop computes the canonical path |
| LogicalPath.DotDotRemoves | src/builtin/cd.rs:66-88 | for every directory, a component followed by `..` and a component `.` do not matter, and `..` at the root does nothing |
| LogicalPath.ComponentIsAppended | src/builtin/cd.rs:66-88 | any other component is written after the canonical directory, the root read as empty |
| LogicalPath.PlainPathIsCanonical | src/builtin/cd.rs:66-88 | a path of such components is its own canonical path |
| LogicalPath.CurpathOfOperand | src/builtin/cd.rs:47-64 | an absolute operand stands alone, any other is taken from the current directory |
| LogicalPath.ValidByComponents | src/builtin/pwd.rs:49-59 | a logical working directory is absolute and has no component `.` or `..` |
| LogicalPath.CanonicalIsValid | src/builtin/pwd.rs:49-59 | every canonical path passes the test for a logical working directory |
| LogicalPath.CanonicalIdempotent | src/builtin/cd.rs:66-88 | canonicalising twice is canonicalising once |
| LogicalPath.CanonicalThenJoin | src/builtin/cd.rs:47-88 | canonicalising before joining does not change the result |
| LogicalPath.SlashesCollapse | src/builtin/cd.rs:66-88 | repeated slashes do not matter |
| LogicalPath.TwoChangesAreOne | src/builtin/cd.rs:47-88 | changing to one relative directory and then another is changing to their concatenation |
| Quoting.ShellQuote | src/builtin/alias.rs:43-58 | single quotes around the value, with quotes inside escaped |
| Quoting.ShellQuoteIfNeeded | src/builtin/alias.rs:60-80 | quotes exactly the values that need it |
| Quoting.QuotedReadsBack | src/builtin/alias.rs:43-58 | a quoted value is read as one word equal to the value |
| Quoting.ShownReadsBack | src/builtin/alias.rs:74-80 | so is every shown value, quoted or not |
| Quoting.ShownAsItIs | src/builtin/alias.rs:60-80 | a value is shown as it is iff it is not empty and has only letters, digits and `_ / . - + : ,`; any other is shown between single quotes |
| Quoting.FormatAliasDefinition | src/builtin/alias.rs:36-41 | the printed definition is the name, an equals sign and the shown value |

## Left out

- ArithEvaluator.ArithmeticParser.ParseOperators: one method for the eight of src/expand/arithmetic.rs:178-330, which differ in the operators they look for and the method they call for operands.
- FlowTheorems.RunScript: after a misplaced transfer states that something more is begun, not what it does.
- FlowShell.Shell.ExecuteProgram: says nothing about the suppression flag after an error, which the source does not restore there.
- FlowShell.Shell.RaiseReturn: a return in a sourced file is an error here, because sourced files are not modelled.
- FlowTheorems.CalmScriptLeavesNoJump: goes one way; RunScript and JumpLeftExactly are exact.
- FlowShell.Shell.ExecuteCommand: has no function definitions; the functions are fixed before the script runs.
- FdCommand.NoneReturnsKeepsCopies: goes one way, because redirecting a copy to the description it holds does no harm; ListRestoresExactly is the exact condition.
- FdChild.ChildAgreesExactly: is about every prefix of the list, because a later redirection can cover up an earlier disagreement.
- FdPipeline.WaitForChildren: leaves out stopped children and errors of the wait call.
- Getopts.SessionIsDecode: is about runs whose name operand is not OPTIND, OPTARG or the saved index and whose variables are not readonly, since otherwise what was reported is overwritten or refused; that runs end, or when they do not, is covered without that restriction.
- ReadLine.ReadCursor.Drop: repositioning the input does not fail here; the source ignores such a failure.
- Printf.PrintfBuiltin: takes a bound on the number of passes watched, because the source's loop may never end.
- Diagnostics, messages and the exit status of `printf`; formatting of numbers and strings by `printf` conversions.
- Traps, asynchronous lists, subshell bodies, stopped and timed jobs, terminal handling, and sourced files.
- The parser, word expansion and the rest of simple command execution: their results are events on a tape.
- `eval` and other simple commands that run commands: an event cannot be a transfer of control with a failing status, as after `eval '! break'`.
- Line numbers, allexport, and the effects of assigning PATH, IFS or locale variables.
- Locale decoding: one byte is one character, except that IFS may hold longer sequences.
- What is written to files and pipes: the contents of a file are those at the start, or none once it has been emptied or created; here-document bodies are only written or not. A here-document that fails leaves its pipe open in the source and in the model.
- Other processes that create or remove files meanwhile, directories and permissions: an open that noclobber or a missing file does not refuse fails only by a fault.
- Closing or duplicating a descriptor fails only when it is not open.
- Physical `cd -P`, symbolic links, CDPATH, and the check that a directory exists.
- The stack depth of recursive evaluation.
- AST rendering, `bind`, job control and the other builtins.
