/** The getopts builtin (src/builtin/getopts.rs), one byte per character. Its state lives in
    shell variables between calls; the reference reads the operands once from left to right. */
module Getopts {
  import opened Wrappers
  import opened Int64
  import opened Decimal

  const OPTIND := "OPTIND"
  const OPTARG := "OPTARG"
  const CIND := "_GETOPTS_CIND"

  // ---------------------------------------------------------------- the option string

  datatype Kind = Undeclared | Flag | TakesArgument

  function Lookup(opts: string, c: char): Kind {
    if opts == "" then Undeclared
    else if opts[0] != ':' && opts[0] == c then
      if |opts| > 1 && opts[1] == ':' then TakesArgument else Flag
    else Lookup(opts[1..], c)
  }

  predicate FirstAt(opts: string, c: char, pos: nat) {
    pos < |opts| && opts[pos] == c && c != ':' && forall k :: 0 <= k < pos ==> opts[k] != c
  }

  predicate Takes(opts: string, pos: nat) {
    pos + 1 < |opts| && opts[pos + 1] == ':'
  }

  method FindOptInOptstring(opts: string, target: char) returns (pos: Option<nat>)
    ensures pos.Some? ==> FirstAt(opts, target, pos.value)
    ensures pos.None? ==> target == ':' || target !in opts
  {
    var i := 0;
    while i < |opts|
      invariant 0 <= i <= |opts|
      invariant forall k :: 0 <= k < i ==> opts[k] == ':' || opts[k] != target
    {
      if opts[i] != ':' && opts[i] == target {
        return Some(i);
      }
      i := i + 1;
    }
    return None;
  }

  lemma {:induction false} LookupAtFirst(opts: string, c: char, pos: nat)
    requires FirstAt(opts, c, pos)
    ensures Lookup(opts, c) == if Takes(opts, pos) then TakesArgument else Flag
  {
    if pos > 0 {
      LookupAtFirst(opts[1..], c, pos - 1);
    }
  }

  lemma {:induction false} LookupNowhere(opts: string, c: char)
    requires c == ':' || c !in opts
    ensures Lookup(opts, c) == Undeclared
  {
    if opts != "" {
      LookupNowhere(opts[1..], c);
    }
  }

  // ---------------------------------------------------------------- the reference

  /** What one successful call tells the script. */
  datatype Report = Report(name: string, optarg: Option<string>)

  datatype Decoded = Decoded(reports: seq<Report>, operands: seq<string>)

  function Then(r: Report, rest: Decoded): Decoded {
    rest.(reports := [r] + rest.reports)
  }

  function UndeclaredReport(silent: bool, c: char): Report {
    Report("?", if silent then Some([c]) else None)
  }

  function MissingReport(silent: bool, c: char): Report {
    if silent then Report(":", Some([c])) else Report("?", None)
  }

  predicate IsCluster(arg: string) {
    |arg| >= 2 && arg[0] == '-' && arg != "--"
  }

  /** One pass over the operands: everything before the first operand that is not an option. */
  function Decode(opts: string, silent: bool, params: seq<string>): Decoded
    decreases |params|, 1, 0
  {
    if params == [] then Decoded([], [])
    else if params[0] == "--" then Decoded([], params[1..])
    else if !IsCluster(params[0]) then Decoded([], params)
    else Letters(opts, silent, params[0][1..], params[1..])
  }

  function Letters(opts: string, silent: bool, letters: string, rest: seq<string>): Decoded
    decreases |rest|, 2, |letters|
  {
    if letters == "" then Decode(opts, silent, rest)
    else
      var c := letters[0];
      match Lookup(opts, c)
      case Undeclared => Then(UndeclaredReport(silent, c), Letters(opts, silent, letters[1..], rest))
      case Flag => Then(Report([c], None), Letters(opts, silent, letters[1..], rest))
      case TakesArgument =>
        if letters[1..] != "" then Then(Report([c], Some(letters[1..])), Decode(opts, silent, rest))
        else if rest != [] then Then(Report([c], Some(rest[0])), Decode(opts, silent, rest[1..]))
        else Then(MissingReport(silent, c), Decoded([], []))
  }

  // ---------------------------------------------------------------- one call

  datatype Cursor = Cursor(optind: nat, charind: nat)

  datatype Order = ArgumentFirst | NameFirst | NameSecond

  datatype Turn =
    | Over(next: nat, clear: bool)
    | Found(report: Report, after: Cursor, order: Order)
    | Crash

  function Advance(arg: string, optind: nat, ci: nat): Cursor {
    if ci + 1 < |arg| then Cursor(optind, ci + 1) else Cursor(optind + 1, 0)
  }

  function TurnAt(opts: string, silent: bool, params: seq<string>, at: Cursor): Turn {
    if at.optind < 1 || at.optind > |params| then Over(|params| + 1, false)
    else
      var arg := params[at.optind - 1];
      if at.charind == 0 && arg == "--" then Over(at.optind + 1, true)
      else if at.charind == 0 && !IsCluster(arg) then Over(at.optind, true)
      else LetterTurn(opts, silent, params, at.optind, if at.charind == 0 then 1 else at.charind)
  }

  function LetterTurn(opts: string, silent: bool, params: seq<string>, optind: nat, ci: nat): Turn
    requires 1 <= optind <= |params|
  {
    var arg := params[optind - 1];
    if ci >= |arg| then Crash
    else
      var c := arg[ci];
      match Lookup(opts, c)
      case Undeclared => Found(UndeclaredReport(silent, c), Advance(arg, optind, ci), NameSecond)
      case Flag => Found(Report([c], None), Advance(arg, optind, ci), ArgumentFirst)
      case TakesArgument =>
        if ci + 1 < |arg| then
          Found(Report([c], Some(arg[ci + 1..])), Cursor(optind + 1, 0), ArgumentFirst)
        else if optind < |params| then
          Found(Report([c], Some(params[optind])), Cursor(optind + 2, 0), ArgumentFirst)
        else Found(MissingReport(silent, c), Cursor(optind + 1, 0), NameFirst)
  }

  // ---------------------------------------------------------------- the shell variables

  datatype Env = Env(vars: map<string, string>, readonly: set<string>)

  function Get(env: Env, name: string): Option<string> {
    if name in env.vars then Some(env.vars[name]) else None
  }

  function Reading(env: Env, name: string, fallback: nat): nat {
    match Get(env, name)
    case None => fallback
    case Some(text) => NumberIn(text, fallback)
  }

  function NumberIn(text: string, fallback: nat): nat {
    if ParseUsize(text).Some? then ParseUsize(text).value else fallback
  }

  function CursorOf(env: Env): Cursor {
    Cursor(Reading(env, OPTIND, 1), Reading(env, CIND, 0))
  }

  datatype Write =
    | Set(name: string, value: string)
    | Unset(name: string)
    | Insert(name: string, value: string)
    | Remove(name: string)

  /** Only `Set` can fail; `Unset` of a readonly variable is silently skipped, and the table
      operations `Insert` and `Remove` do not look at the readonly mark. */
  predicate Allowed(env: Env, w: Write) {
    w.Set? ==> w.name !in env.readonly
  }

  function Wrote(env: Env, w: Write): Env
    requires Allowed(env, w)
  {
    match w
    case Set(name, value) => env.(vars := env.vars[name := value])
    case Insert(name, value) => env.(vars := env.vars[name := value])
    case Unset(name) => if name in env.readonly then env else env.(vars := env.vars - {name})
    case Remove(name) => Env(env.vars - {name}, env.readonly - {name})
  }

  /** The writes in order, up to the first one that is refused. */
  function Perform(env: Env, writes: seq<Write>): (r: (Env, bool))
    decreases |writes|
  {
    if writes == [] then (env, true)
    else if !Allowed(env, writes[0]) then (env, false)
    else Perform(Wrote(env, writes[0]), writes[1..])
  }

  function ArgumentWrite(optarg: Option<string>): Write {
    match optarg
    case None => Unset(OPTARG)
    case Some(v) => Set(OPTARG, v)
  }

  function MoveWrites(after: Cursor): seq<Write> {
    if after.charind > 0 then [Insert(CIND, Numeral(Ten, after.charind))]
    else [Set(OPTIND, Numeral(Ten, after.optind)), Remove(CIND)]
  }

  function Writes(name: string, turn: Turn): seq<Write> {
    match turn
    case Crash => []
    case Over(next, clear) =>
      [Set(name, "?"), Unset(OPTARG), Set(OPTIND, Numeral(Ten, next))] + (if clear then [Remove(CIND)] else [])
    case Found(report, after, order) =>
      var setName := [Set(name, report.name)];
      var setArg := [ArgumentWrite(report.optarg)];
      match order
      case ArgumentFirst => setArg + MoveWrites(after) + setName
      case NameFirst => setName + setArg + MoveWrites(after)
      case NameSecond => setArg + setName + MoveWrites(after)
  }

  datatype Outcome = Status(code: nat) | Panic

  function Call(env: Env, name: string, opts: string, silent: bool, params: seq<string>): (r: (Env, Outcome)) {
    var turn := TurnAt(opts, silent, params, CursorOf(env));
    var (after, ok) := Perform(env, Writes(name, turn));
    (after,
     if turn.Crash? then Panic else if !ok then Status(2) else if turn.Over? then Status(1) else Status(0))
  }

  class Shell {
    var vars: map<string, string>
    var readonly: set<string>
    var positional: seq<string>

    function View(): Env
      reads this
    {
      Env(vars, readonly)
    }

    method SetVar(name: string, value: string) returns (ok: bool)
      modifies this`vars
      ensures ok == Allowed(old(View()), Set(name, value))
      ensures View() == if ok then Wrote(old(View()), Set(name, value)) else old(View())
    {
      ok := name !in readonly;
      if ok {
        vars := vars[name := value];
      }
    }

    method UnsetVar(name: string)
      modifies this`vars
      ensures View() == Wrote(old(View()), Unset(name))
    {
      if name !in readonly {
        vars := vars - {name};
      }
    }

    method EnvInsert(name: string, value: string)
      modifies this`vars
      ensures View() == Wrote(old(View()), Insert(name, value))
    {
      vars := vars[name := value];
    }

    method EnvRemove(name: string)
      modifies this`vars, this`readonly
      ensures View() == Wrote(old(View()), Remove(name))
    {
      vars := vars - {name};
      readonly := readonly - {name};
    }

    method UsizeOf(name: string, fallback: nat) returns (n: nat)
      ensures n == Reading(View(), name, fallback)
    {
      n := fallback;
      if name in vars {
        var v := ParseI64(vars[name]);
        if v.Some? && v.value >= 0 {
          n := v.value;
        }
      }
    }

    /** The saved position after this call: inside the same operand, or at a later one. */
    method MoveTo(after: Cursor) returns (ok: bool)
      modifies this`vars, this`readonly
      ensures (View(), ok) == Perform(old(View()), MoveWrites(after))
      ensures positional == old(positional)
    {
      ok := true;
      if after.charind > 0 {
        SingleWrite(View(), Insert(CIND, Numeral(Ten, after.charind)));
        EnvInsert(CIND, Numeral(Ten, after.charind));
      } else {
        Pair(View(), Set(OPTIND, Numeral(Ten, after.optind)), Remove(CIND));
        ok := SetVar(OPTIND, Numeral(Ten, after.optind));
        if ok {
          EnvRemove(CIND);
        }
      }
    }

    method SetArgument(optarg: Option<string>) returns (ok: bool)
      modifies this`vars
      ensures (View(), ok) == Perform(old(View()), [ArgumentWrite(optarg)])
    {
      ok := true;
      if optarg.Some? {
        ok := SetVar(OPTARG, optarg.value);
      } else {
        UnsetVar(OPTARG);
      }
    }

    method EndOfOptions(name: string, next: nat, clear: bool) returns (outcome: Outcome)
      modifies this`vars, this`readonly
      ensures positional == old(positional)
      ensures (var (after, ok) := Perform(old(View()), Writes(name, Over(next, clear)));
               View() == after && outcome == if ok then Status(1) else Status(2))
    {
      ghost var moved := Set(OPTIND, Numeral(Ten, next));
      ghost var clearing := if clear then [Remove(CIND)] else [];
      InThree(View(), [Set(name, "?")], [Unset(OPTARG), moved], clearing);
      assert Writes(name, Over(next, clear)) == [Set(name, "?")] + [Unset(OPTARG), moved] + clearing;
      SingleWrite(View(), Set(name, "?"));
      hide Perform, Numeral;
      var ok := SetVar(name, "?");
      if !ok {
        return Status(2);
      }
      Pair(View(), Unset(OPTARG), moved);
      UnsetVar(OPTARG);
      ok := SetVar(OPTIND, Numeral(Ten, next));
      if !ok {
        return Status(2);
      }
      NothingWritten(View());
      SingleWrite(View(), Remove(CIND));
      if clear {
        EnvRemove(CIND);
      }
      return Status(1);
    }

    method GetoptsInner(name: string, opts: string, silent: bool, params: seq<string>, optind: nat, charind: nat)
      returns (outcome: Outcome)
      requires CursorOf(View()) == Cursor(optind, charind)
      modifies this`vars, this`readonly
      ensures positional == old(positional)
      ensures (View(), outcome) == Call(old(View()), name, opts, silent, params)
    {
      hide Perform, Numeral, CursorOf;
      if optind < 1 || optind > |params| {
        outcome := EndOfOptions(name, |params| + 1, false);
        return;
      }
      var arg := params[optind - 1];
      if charind == 0 {
        if arg == "--" {
          outcome := EndOfOptions(name, optind + 1, true);
          return;
        }
        if |arg| < 2 || arg[0] != '-' {
          outcome := EndOfOptions(name, optind, true);
          return;
        }
      }
      var ci := if charind == 0 then 1 else charind;
      outcome := Letter(name, opts, silent, params, optind, ci);
    }

    /** An option character that is not declared (lines 165-188). */
    method UndeclaredOption(name: string, silent: bool, arg: string, optind: nat, ci: nat) returns (ok: bool)
      requires ci < |arg|
      modifies this`vars, this`readonly
      ensures positional == old(positional)
      ensures (View(), ok) == Perform(old(View()),
        Writes(name, Found(UndeclaredReport(silent, arg[ci]), Advance(arg, optind, ci), NameSecond)))
    {
      var optarg := if silent then Some([arg[ci]]) else None;
      InThree(View(), [ArgumentWrite(optarg)], [Set(name, "?")], MoveWrites(Advance(arg, optind, ci)));
      hide Perform, Numeral;
      ok := SetArgument(optarg);
      if ok {
        SingleWrite(View(), Set(name, "?"));
        ok := SetVar(name, "?");
        if ok {
          ok := MoveTo(Advance(arg, optind, ci));
        }
      }
    }

    /** An option at the very end whose argument is missing (lines 130-147). */
    method MissingArgument(name: string, silent: bool, c: char, optind: nat) returns (ok: bool)
      modifies this`vars, this`readonly
      ensures positional == old(positional)
      ensures (View(), ok) == Perform(old(View()),
        Writes(name, Found(MissingReport(silent, c), Cursor(optind + 1, 0), NameFirst)))
    {
      var report := if silent then ":" else "?";
      var optarg := if silent then Some([c]) else None;
      InThree(View(), [Set(name, report)], [ArgumentWrite(optarg)], MoveWrites(Cursor(optind + 1, 0)));
      SingleWrite(View(), Set(name, report));
      hide Perform, Numeral;
      ok := SetVar(name, report);
      if ok {
        ok := SetArgument(optarg);
        if ok {
          ok := MoveTo(Cursor(optind + 1, 0));
        }
      }
    }

    /** From the option character on (lines 108-189). */
    method Letter(name: string, opts: string, silent: bool, params: seq<string>, optind: nat, ci: nat)
      returns (outcome: Outcome)
      requires 1 <= optind <= |params|
      modifies this`vars, this`readonly
      ensures positional == old(positional)
      ensures (var turn := LetterTurn(opts, silent, params, optind, ci);
               var (after, ok) := Perform(old(View()), Writes(name, turn));
               View() == after
               && outcome == if turn.Crash? then Panic else if ok then Status(0) else Status(2))
    {
      var arg := params[optind - 1];
      if ci >= |arg| {
        NothingWritten(View());
        return Panic;
      }
      var opt := [arg[ci]];
      var pos := FindOptInOptstring(opts, arg[ci]);
      var ok;
      hide Perform, Numeral;
      if pos.Some? {
        LookupAtFirst(opts, arg[ci], pos.value);
        var optarg, after := None, Advance(arg, optind, ci);
        if pos.value + 1 < |opts| && opts[pos.value + 1] == ':' {
          if ci + 1 < |arg| {
            optarg, after := Some(arg[ci + 1..]), Cursor(optind + 1, 0);
          } else if optind < |params| {
            optarg, after := Some(params[optind]), Cursor(optind + 2, 0);
          } else {
            ok := MissingArgument(name, silent, arg[ci], optind);
            return if ok then Status(0) else Status(2);
          }
        }
        InThree(View(), [ArgumentWrite(optarg)], MoveWrites(after), [Set(name, opt)]);
        ok := SetArgument(optarg);
        if ok {
          ok := MoveTo(after);
          if ok {
            SingleWrite(View(), Set(name, opt));
            ok := SetVar(name, opt);
          }
        }
      } else {
        LookupNowhere(opts, arg[ci]);
        ok := UndeclaredOption(name, silent, arg, optind, ci);
      }
      return if ok then Status(0) else Status(2);
    }

    method Getopts(argv: seq<string>) returns (outcome: Outcome)
      modifies this`vars, this`readonly
      ensures positional == old(positional)
      ensures |argv| < 3 ==> View() == old(View()) && outcome == Status(2)
      ensures |argv| >= 3 ==>
        (View(), outcome) == Call(old(View()), argv[2], Declared(argv[1]), Silent(argv[1]),
                                  if |argv| > 3 then argv[3..] else positional)
    {
      if |argv| < 3 {
        return Status(2);
      }
      var optstring, name := argv[1], argv[2];
      var silent := optstring != "" && optstring[0] == ':';
      var opts := if silent then optstring[1..] else optstring;
      var params := if |argv| > 3 then argv[3..] else positional;
      var optind := UsizeOf(OPTIND, 1);
      var charind := UsizeOf(CIND, 0);
      outcome := GetoptsInner(name, opts, silent, params, optind, charind);
    }
  }

  predicate Silent(optstring: string) {
    optstring != "" && optstring[0] == ':'
  }

  function Declared(optstring: string): string {
    if Silent(optstring) then optstring[1..] else optstring
  }

  lemma NothingWritten(env: Env)
    ensures Perform(env, []) == (env, true)
  {
  }

  lemma SingleWrite(env: Env, w: Write)
    ensures Perform(env, [w]) == if Allowed(env, w) then (Wrote(env, w), true) else (env, false)
  {
  }

  lemma Pair(env: Env, a: Write, b: Write)
    ensures Perform(env, [a, b])
         == if !Allowed(env, a) then (env, false)
            else if !Allowed(Wrote(env, a), b) then (Wrote(env, a), false)
            else (Wrote(Wrote(env, a), b), true)
  {
    assert [a, b][1..] == [b];
    if Allowed(env, a) {
      SingleWrite(Wrote(env, a), b);
    }
  }

  lemma {:induction false} InTwo(env: Env, a: seq<Write>, b: seq<Write>)
    ensures Perform(env, a + b)
         == if Perform(env, a).1 then Perform(Perform(env, a).0, b) else Perform(env, a)
    decreases |a|
  {
    if a == [] {
      assert a + b == b;
    } else {
      assert (a + b)[1..] == a[1..] + b;
      if Allowed(env, a[0]) {
        InTwo(Wrote(env, a[0]), a[1..], b);
      }
    }
  }

  lemma InThree(env: Env, a: seq<Write>, b: seq<Write>, c: seq<Write>)
    ensures Perform(env, a + b + c)
         == if !Perform(env, a).1 then Perform(env, a)
            else if !Perform(Perform(env, a).0, b).1 then Perform(Perform(env, a).0, b)
            else Perform(Perform(Perform(env, a).0, b).0, c)
  {
    InTwo(env, a + b, c);
    InTwo(env, a, b);
  }

  // ---------------------------------------------------------------- whole runs

  /** The name operand is an ordinary variable and nothing getopts assigns is readonly. */
  predicate Regular(env: Env, name: string) {
    && name !in {OPTIND, OPTARG, CIND}
    && env.readonly !! {name, OPTIND, OPTARG, CIND}
  }

  /** Lengths of vectors and byte strings fit in an isize. */
  predicate Addressable(params: seq<string>) {
    |params| + 1 <= MAX && forall k :: 0 <= k < |params| ==> |params[k]| <= MAX
  }

  predicate Inside(params: seq<string>, at: Cursor) {
    && 1 <= at.optind <= |params| + 1
    && (at.charind > 0 ==> at.optind <= |params| && at.charind < |params[at.optind - 1]|)
  }

  predicate Before(a: Cursor, b: Cursor) {
    a.optind < b.optind || (a.optind == b.optind && a.charind < b.charind)
  }

  ghost predicate SameElsewhere(a: Env, b: Env, name: string) {
    forall v: string :: v !in {name, OPTIND, OPTARG, CIND} ==> Get(a, v) == Get(b, v)
  }

  lemma ReadingNumeral(env: Env, name: string, n: nat, fallback: nat)
    requires n <= MAX && Get(env, name) == Some(Numeral(Ten, n))
    ensures Reading(env, name, fallback) == n
  {
    ParseInvertsText(n);
  }

  /** An accepted turn moves strictly forward and stays inside its operand. */
  lemma TurnAdvances(opts: string, silent: bool, params: seq<string>, at: Cursor)
    requires Inside(params, at)
    ensures (var turn := TurnAt(opts, silent, params, at);
             !turn.Crash?
             && (turn.Found? ==> Before(at, turn.after) && Inside(params, turn.after)
                                 && (turn.after.charind > 0 ==> turn.after.optind == at.optind))
             && (turn.Over? ==> 1 <= turn.next <= |params| + 1 && at.charind == 0))
  {
  }

  /** The move recorded in the variables is the move the next call reads back. */
  lemma MoveIsReadBack(env: Env, after: Cursor)
    requires OPTIND !in env.readonly
    requires after.optind <= MAX && after.charind <= MAX
    requires after.charind > 0 ==> after.optind == CursorOf(env).optind
    ensures Perform(env, MoveWrites(after)).1
    ensures (var env' := Perform(env, MoveWrites(after)).0;
             CursorOf(env') == after
             && env'.readonly <= env.readonly
             && forall v: string :: v !in {OPTIND, CIND} ==> Get(env', v) == Get(env, v))
  {
    var env' := Perform(env, MoveWrites(after)).0;
    if after.charind > 0 {
      SingleWrite(env, Insert(CIND, Numeral(Ten, after.charind)));
      ReadingNumeral(env', CIND, after.charind, 0);
    } else {
      Pair(env, Set(OPTIND, Numeral(Ten, after.optind)), Remove(CIND));
      ReadingNumeral(env', OPTIND, after.optind, 1);
    }
  }

  ghost predicate Reported(env: Env, after: Env, name: string, report: Report, at: Cursor) {
    && Regular(after, name)
    && CursorOf(after) == at
    && Get(after, name) == Some(report.name)
    && Get(after, OPTARG) == report.optarg
    && SameElsewhere(env, after, name)
  }

  lemma {:induction false} FoundIsRecorded(env: Env, name: string, report: Report, after: Cursor, order: Order)
    requires Regular(env, name)
    requires after.optind <= MAX && after.charind <= MAX
    requires after.charind > 0 ==> after.optind == CursorOf(env).optind
    ensures Perform(env, Writes(name, Found(report, after, order))).1
    ensures Reported(env, Perform(env, Writes(name, Found(report, after, order))).0, name, report, after)
  {
    var set1, arg1 := Set(name, report.name), ArgumentWrite(report.optarg);
    var moves := MoveWrites(after);
    hide Perform, Numeral, CursorOf, MoveWrites;
    match order {
      case ArgumentFirst =>
        InThree(env, [arg1], moves, [set1]);
        PlainWrite(env, arg1);
        MoveIsReadBack(Wrote(env, arg1), after);
        var moved := Perform(Wrote(env, arg1), moves).0;
        assert Get(moved, OPTARG) == report.optarg;
        PlainWrite(moved, set1);
        assert forall v: string :: v != name ==> Get(Wrote(moved, set1), v) == Get(moved, v);
      case NameFirst =>
        InThree(env, [set1], [arg1], moves);
        PlainWrite(env, set1);
        PlainWrite(Wrote(env, set1), arg1);
        MoveIsReadBack(Wrote(Wrote(env, set1), arg1), after);
      case NameSecond =>
        InThree(env, [arg1], [set1], moves);
        PlainWrite(env, arg1);
        PlainWrite(Wrote(env, arg1), set1);
        MoveIsReadBack(Wrote(Wrote(env, arg1), set1), after);
    }
  }

  /** A permitted assignment to another variable leaves the saved position alone. */
  lemma PlainWrite(env: Env, w: Write)
    requires (w.Set? || w.Unset?) && w.name !in {OPTIND, CIND} && w.name !in env.readonly
    ensures Perform(env, [w]) == (Wrote(env, w), true)
    ensures CursorOf(Wrote(env, w)) == CursorOf(env)
  {
  }

  lemma {:induction false} OverIsRecorded(env: Env, name: string, next: nat, clear: bool)
    requires Regular(env, name) && next <= MAX
    requires !clear ==> CursorOf(env).charind == 0
    ensures Perform(env, Writes(name, Over(next, clear))).1
    ensures Reported(env, Perform(env, Writes(name, Over(next, clear))).0, name, Report("?", None), Cursor(next, 0))
  {
    var moved := Set(OPTIND, Numeral(Ten, next));
    var clearing := if clear then [Remove(CIND)] else [];
    assert Writes(name, Over(next, clear)) == [Set(name, "?")] + [Unset(OPTARG), moved] + clearing;
    InThree(env, [Set(name, "?")], [Unset(OPTARG), moved], clearing);
    SingleWrite(env, Set(name, "?"));
    var env1 := Wrote(env, Set(name, "?"));
    Pair(env1, Unset(OPTARG), moved);
    var env2 := Wrote(Wrote(env1, Unset(OPTARG)), moved);
    NothingWritten(env2);
    SingleWrite(env2, Remove(CIND));
    ReadingNumeral(Perform(env2, clearing).0, OPTIND, next, 1);
  }

  /** What one call does to the variables, from any reachable position. */
  lemma CallMeansTurn(env: Env, name: string, opts: string, silent: bool, params: seq<string>)
    requires Regular(env, name) && Addressable(params) && Inside(params, CursorOf(env))
    ensures (var turn := TurnAt(opts, silent, params, CursorOf(env));
             var (after, outcome) := Call(env, name, opts, silent, params);
             match turn
             case Crash => false
             case Over(next, _) => outcome == Status(1) && Reported(env, after, name, Report("?", None), Cursor(next, 0))
             case Found(report, to, _) => outcome == Status(0) && Reported(env, after, name, report, to))
  {
    var at := CursorOf(env);
    TurnAdvances(opts, silent, params, at);
    var turn := TurnAt(opts, silent, params, at);
    if turn.Over? {
      OverIsRecorded(env, name, turn.next, turn.clear);
    } else {
      FoundIsRecorded(env, name, turn.report, turn.after, turn.order);
    }
  }

  /** The position the next call reads after one that returned 0. It is the turn's, except that
      a name operand of OPTIND or the saved index is assigned the letter after, or instead of,
      the position. */
  function NextPosition(name: string, turn: Turn): Cursor
    requires turn.Found?
  {
    var after, word := turn.after, turn.report.name;
    if name == OPTIND && turn.order == ArgumentFirst then Cursor(NumberIn(word, 1), after.charind)
    else if name == OPTIND && turn.order == NameSecond && after.charind > 0 then Cursor(NumberIn(word, 1), after.charind)
    else if name == CIND && turn.order == ArgumentFirst then Cursor(after.optind, NumberIn(word, 0))
    else after
  }

  lemma MovesWhenAllowed(env: Env, after: Cursor)
    requires Perform(env, MoveWrites(after)).1
    requires after.optind <= MAX && after.charind <= MAX
    ensures var moved := Perform(env, MoveWrites(after)).0;
            CursorOf(moved) == if after.charind > 0 then Cursor(CursorOf(env).optind, after.charind) else after
  {
    var moved := Perform(env, MoveWrites(after)).0;
    if after.charind > 0 {
      SingleWrite(env, Insert(CIND, Numeral(Ten, after.charind)));
      ReadingNumeral(moved, CIND, after.charind, 0);
    } else {
      Pair(env, Set(OPTIND, Numeral(Ten, after.optind)), Remove(CIND));
      ReadingNumeral(moved, OPTIND, after.optind, 1);
    }
  }

  /** The position after one permitted assignment or unsetting. */
  lemma AssignedPosition(env: Env, w: Write)
    requires (w.Set? || (w.Unset? && w.name == OPTARG)) && Perform(env, [w]).1
    ensures Allowed(env, w) && Perform(env, [w]).0 == Wrote(env, w)
    ensures CursorOf(Wrote(env, w))
         == if w.name == OPTIND then Cursor(NumberIn(w.value, 1), CursorOf(env).charind)
            else if w.name == CIND then Cursor(CursorOf(env).optind, NumberIn(w.value, 0))
            else CursorOf(env)
  {
    SingleWrite(env, w);
  }

  lemma FoundMoves(env: Env, name: string, report: Report, after: Cursor, order: Order)
    requires Perform(env, Writes(name, Found(report, after, order))).1
    requires after.optind <= MAX && after.charind <= MAX
    requires (after.charind > 0 ==> after.optind == CursorOf(env).optind) && (order == NameFirst ==> after.charind == 0)
    ensures CursorOf(Perform(env, Writes(name, Found(report, after, order))).0) == NextPosition(name, Found(report, after, order))
  {
    var set1, arg1, moves := Set(name, report.name), ArgumentWrite(report.optarg), MoveWrites(after);
    hide Perform, Numeral, CursorOf, MoveWrites, NumberIn, Wrote;
    match order {
      case ArgumentFirst =>
        InThree(env, [arg1], moves, [set1]);
        AssignedPosition(env, arg1);
        MovesWhenAllowed(Wrote(env, arg1), after);
        AssignedPosition(Perform(Wrote(env, arg1), moves).0, set1);
      case NameFirst =>
        InThree(env, [set1], [arg1], moves);
        AssignedPosition(env, set1);
        AssignedPosition(Wrote(env, set1), arg1);
        MovesWhenAllowed(Wrote(Wrote(env, set1), arg1), after);
      case NameSecond =>
        InThree(env, [arg1], [set1], moves);
        AssignedPosition(env, arg1);
        AssignedPosition(Wrote(env, arg1), set1);
        MovesWhenAllowed(Wrote(Wrote(env, arg1), set1), after);
    }
  }

  /** Whatever the name operand and whatever is readonly, a call that returns 0 found an option
      and moved to that position. */
  lemma CallMoves(env: Env, name: string, opts: string, silent: bool, params: seq<string>)
    requires Addressable(params) && Call(env, name, opts, silent, params).1 == Status(0)
    ensures var turn := TurnAt(opts, silent, params, CursorOf(env));
            turn.Found? && CursorOf(Call(env, name, opts, silent, params).0) == NextPosition(name, turn)
  {
    hide CursorOf, Perform, Lookup;
    var turn := TurnAt(opts, silent, params, CursorOf(env));
    FoundMoves(env, name, turn.report, turn.after, turn.order);
  }

  /** With any other name a call that returns 0 moves strictly forward, and stays inside. */
  lemma AcceptedCallAdvances(env: Env, name: string, opts: string, silent: bool, params: seq<string>)
    requires name !in {OPTIND, CIND} && Addressable(params) && Call(env, name, opts, silent, params).1 == Status(0)
    ensures Before(CursorOf(env), CursorOf(Call(env, name, opts, silent, params).0))
    ensures Inside(params, CursorOf(Call(env, name, opts, silent, params).0))
  {
    hide CursorOf, Call, Lookup;
    CallMoves(env, name, opts, silent, params);
  }

  // ---------------------------------------------------------------- runs that end and runs that do not

  /** The variables after n calls that all return 0. */
  function Calls(env: Env, name: string, opts: string, silent: bool, params: seq<string>, n: nat): Option<Env> {
    if n == 0 then Some(env)
    else
      match Calls(env, name, opts, silent, params, n - 1)
      case None => None
      case Some(before) =>
        var (after, outcome) := Call(before, name, opts, silent, params);
        if outcome == Status(0) then Some(after) else None
  }

  /** The position after n turns that all find an option. */
  function Walk(name: string, opts: string, silent: bool, params: seq<string>, at: Cursor, n: nat): Option<Cursor> {
    if n == 0 then Some(at)
    else
      match Walk(name, opts, silent, params, at, n - 1)
      case None => None
      case Some(before) =>
        var turn := TurnAt(opts, silent, params, before);
        if turn.Found? then Some(NextPosition(name, turn)) else None
  }

  /** Nothing getopts assigns is readonly. */
  predicate Writable(env: Env, name: string) {
    env.readonly !! {name, OPTIND, OPTARG, CIND}
  }

  lemma {:induction false} WritableAllows(env: Env, name: string, writes: seq<Write>)
    requires Writable(env, name) && forall w | w in writes :: w.name in {name, OPTIND, OPTARG, CIND}
    ensures Perform(env, writes).1 && Writable(Perform(env, writes).0, name)
    decreases |writes|
  {
    if writes != [] {
      assert writes[0] in writes;
      WritableAllows(Wrote(env, writes[0]), name, writes[1..]);
    }
  }

  /** The calls follow the walk, and make all of it when nothing is readonly. */
  lemma {:induction false} CallsFollowTheWalk(env: Env, name: string, opts: string, silent: bool, params: seq<string>, n: nat)
    requires Addressable(params)
    ensures var calls := Calls(env, name, opts, silent, params, n);
            var walk := Walk(name, opts, silent, params, CursorOf(env), n);
            && (calls.Some? ==> walk == Some(CursorOf(calls.value)))
            && (Writable(env, name) ==> (calls.Some? <==> walk.Some?) && (calls.Some? ==> Writable(calls.value, name)))
  {
    hide CursorOf, TurnAt, NextPosition, Perform, Writable;
    if n > 0 {
      CallsFollowTheWalk(env, name, opts, silent, params, n - 1);
      var before := Calls(env, name, opts, silent, params, n - 1);
      if before.Some? {
        if Call(before.value, name, opts, silent, params).1 == Status(0) {
          CallMoves(before.value, name, opts, silent, params);
        }
        if Writable(env, name) {
          WritesAreOurs(name, TurnAt(opts, silent, params, CursorOf(before.value)));
          WritableAllows(before.value, name, Writes(name, TurnAt(opts, silent, params, CursorOf(before.value))));
        }
      }
    }
  }

  lemma WritesAreOurs(name: string, turn: Turn)
    ensures forall w | w in Writes(name, turn) :: w.name in {name, OPTIND, OPTARG, CIND}
  {
  }

  /** The positions in the operand numbered `optind`, which has `length` bytes. */
  function Row(optind: nat, length: nat): (row: set<Cursor>)
    ensures |row| == length && forall c :: c in row <==> c.optind == optind && c.charind < length
  {
    if length == 0 then {} else Row(optind, length - 1) + {Cursor(optind, length - 1)}
  }

  /** All the positions, one for each byte of the operands. */
  function Positions(params: seq<string>): (all: set<Cursor>)
    ensures |all| == Bytes(params)
    ensures forall c :: c in all <==> 1 <= c.optind <= |params| && c.charind < |params[c.optind - 1]|
  {
    if params == [] then {}
    else
      var n := |params| - 1;
      var before, row := Positions(params[..n]), Row(n + 1, |params[n]|);
      assert before !! row;
      before + row
  }

  function Bytes(params: seq<string>): nat {
    if params == [] then 0 else Bytes(params[..|params| - 1]) + |params[|params| - 1]|
  }

  lemma {:induction false} FoundIsOnAPosition(opts: string, silent: bool, params: seq<string>, at: Cursor)
    requires TurnAt(opts, silent, params, at).Found?
    ensures at in Positions(params)
  {
    hide Positions;
  }

  function Visited(name: string, opts: string, silent: bool, params: seq<string>, at: Cursor, n: nat): set<Cursor>
    requires forall k: nat :: k < n ==> Walk(name, opts, silent, params, at, k).Some?
  {
    if n == 0 then {}
    else Visited(name, opts, silent, params, at, n - 1) + {Walk(name, opts, silent, params, at, n - 1).value}
  }

  lemma {:induction false} VisitedAt(name: string, opts: string, silent: bool, params: seq<string>, at: Cursor, n: nat, c: Cursor)
    returns (k: nat)
    requires forall i: nat :: i < n ==> Walk(name, opts, silent, params, at, i).Some?
    requires c in Visited(name, opts, silent, params, at, n)
    ensures k < n && Walk(name, opts, silent, params, at, k) == Some(c)
  {
    hide Walk;
    k := n - 1;
    if Walk(name, opts, silent, params, at, n - 1) != Some(c) {
      k := VisitedAt(name, opts, silent, params, at, n - 1, c);
    }
  }

  lemma {:induction false} AllDifferent(name: string, opts: string, silent: bool, params: seq<string>, at: Cursor, n: nat)
    requires forall k: nat :: k < n ==> Walk(name, opts, silent, params, at, k).Some?
    requires forall i: nat, j: nat :: i < j < n ==> Walk(name, opts, silent, params, at, i) != Walk(name, opts, silent, params, at, j)
    ensures |Visited(name, opts, silent, params, at, n)| == n
  {
    hide Walk;
    if n > 0 {
      AllDifferent(name, opts, silent, params, at, n - 1);
      var last := Walk(name, opts, silent, params, at, n - 1).value;
      if last in Visited(name, opts, silent, params, at, n - 1) {
        var k := VisitedAt(name, opts, silent, params, at, n - 1, last);
        assert false;
      }
    }
  }

  /** A walk of more turns than the operands have bytes comes back to a position. */
  lemma LongWalkRepeats(name: string, opts: string, silent: bool, params: seq<string>, at: Cursor)
    requires Walk(name, opts, silent, params, at, Bytes(params) + 1).Some?
    ensures ComesBack(name, opts, silent, params, at)
  {
    hide SameAt;
    var n := Bytes(params) + 1;
    forall k: nat | k <= n ensures Walk(name, opts, silent, params, at, k).Some? {
      EarlierWalk(name, opts, silent, params, at, k, n);
    }
    var visited := Visited(name, opts, silent, params, at, n);
    forall c | c in visited ensures c in Positions(params) {
      var k := VisitedAt(name, opts, silent, params, at, n, c);
      assert Walk(name, opts, silent, params, at, k + 1).Some?;
      FoundIsOnAPosition(opts, silent, params, c);
    }
    if forall i: nat, j: nat :: i < j < n ==> Walk(name, opts, silent, params, at, i) != Walk(name, opts, silent, params, at, j) {
      AllDifferent(name, opts, silent, params, at, n);
      SubsetIsSmaller(visited, Positions(params));
    } else {
      var i: nat, j: nat :| i < j < n && Walk(name, opts, silent, params, at, i) == Walk(name, opts, silent, params, at, j);
      Back(name, opts, silent, params, at, i, j);
    }
  }

  lemma Back(name: string, opts: string, silent: bool, params: seq<string>, at: Cursor, i: nat, j: nat)
    requires i < j && Walk(name, opts, silent, params, at, j).Some?
    requires Walk(name, opts, silent, params, at, i) == Walk(name, opts, silent, params, at, j)
    ensures ComesBack(name, opts, silent, params, at)
  {
    hide Walk;
    assert SameAt(name, opts, silent, params, at, i, j);
  }

  lemma {:induction false} SubsetIsSmaller(a: set<Cursor>, b: set<Cursor>)
    requires a <= b
    ensures |a| <= |b|
  {
    if a != {} {
      var x :| x in a;
      SubsetIsSmaller(a - {x}, b - {x});
    }
  }

  /** A walk that comes back to a position goes round from there on. */
  lemma {:induction false} RepeatedWalkGoesOn(name: string, opts: string, silent: bool, params: seq<string>, at: Cursor,
                                              i: nat, j: nat, n: nat)
    requires i < j && Walk(name, opts, silent, params, at, j).Some?
    requires Walk(name, opts, silent, params, at, i) == Walk(name, opts, silent, params, at, j)
    ensures Walk(name, opts, silent, params, at, n).Some?
    ensures n >= j ==> Walk(name, opts, silent, params, at, n) == Walk(name, opts, silent, params, at, n - (j - i))
  {
    hide TurnAt, NextPosition;
    if n > j {
      RepeatedWalkGoesOn(name, opts, silent, params, at, i, j, n - 1);
      RepeatedWalkGoesOn(name, opts, silent, params, at, i, j, n - (j - i));
    } else {
      EarlierWalk(name, opts, silent, params, at, n, j);
    }
  }

  lemma {:induction false} EarlierWalk(name: string, opts: string, silent: bool, params: seq<string>, at: Cursor, k: nat, n: nat)
    requires k <= n && Walk(name, opts, silent, params, at, n).Some?
    ensures Walk(name, opts, silent, params, at, k).Some?
  {
    if k < n {
      EarlierWalk(name, opts, silent, params, at, k, n - 1);
    }
  }

  ghost predicate Endless(env: Env, name: string, opts: string, silent: bool, params: seq<string>) {
    forall n: nat :: Calls(env, name, opts, silent, params, n).Some?
  }

  ghost predicate ComesBack(name: string, opts: string, silent: bool, params: seq<string>, at: Cursor) {
    exists i: nat, j: nat :: SameAt(name, opts, silent, params, at, i, j)
  }

  predicate SameAt(name: string, opts: string, silent: bool, params: seq<string>, at: Cursor, i: nat, j: nat) {
    && i < j && Walk(name, opts, silent, params, at, j).Some?
    && Walk(name, opts, silent, params, at, i) == Walk(name, opts, silent, params, at, j)
  }

  /** A run that makes more calls than the operands have bytes comes back to a position. */
  lemma LongRunComesBack(env: Env, name: string, opts: string, silent: bool, params: seq<string>)
    requires Addressable(params) && Calls(env, name, opts, silent, params, Bytes(params) + 1).Some?
    ensures ComesBack(name, opts, silent, params, CursorOf(env))
  {
    hide Calls, Walk, CursorOf, ComesBack;
    CallsFollowTheWalk(env, name, opts, silent, params, Bytes(params) + 1);
    LongWalkRepeats(name, opts, silent, params, CursorOf(env));
  }

  /** Whatever the name: with nothing readonly, the loop runs for ever exactly when it comes back
      to a position, and exactly when more calls succeed than the operands have bytes. */
  lemma RunsForeverExactly(env: Env, name: string, opts: string, silent: bool, params: seq<string>)
    requires Addressable(params) && Writable(env, name)
    ensures Endless(env, name, opts, silent, params) <==> ComesBack(name, opts, silent, params, CursorOf(env))
    ensures Endless(env, name, opts, silent, params) <==> Calls(env, name, opts, silent, params, Bytes(params) + 1).Some?
  {
    hide Calls, Walk, CursorOf;
    var at := CursorOf(env);
    if Calls(env, name, opts, silent, params, Bytes(params) + 1).Some? {
      LongRunComesBack(env, name, opts, silent, params);
    }
    if ComesBack(name, opts, silent, params, at) {
      var i: nat, j: nat :| SameAt(name, opts, silent, params, at, i, j);
      forall n: nat ensures Calls(env, name, opts, silent, params, n).Some? {
        RepeatedWalkGoesOn(name, opts, silent, params, at, i, j, n);
        CallsFollowTheWalk(env, name, opts, silent, params, n);
      }
    }
  }

  lemma TurnMovesOn(name: string, opts: string, silent: bool, params: seq<string>, at: Cursor)
    requires name !in {OPTIND, CIND} && TurnAt(opts, silent, params, at).Found?
    ensures Before(at, NextPosition(name, TurnAt(opts, silent, params, at)))
  {
    hide Lookup;
  }

  lemma {:induction false} WalkAdvances(name: string, opts: string, silent: bool, params: seq<string>, at: Cursor, i: nat, j: nat)
    requires name !in {OPTIND, CIND} && i < j && Walk(name, opts, silent, params, at, j).Some?
    ensures Walk(name, opts, silent, params, at, i).Some?
    ensures Before(Walk(name, opts, silent, params, at, i).value, Walk(name, opts, silent, params, at, j).value)
  {
    hide TurnAt, NextPosition;
    TurnMovesOn(name, opts, silent, params, Walk(name, opts, silent, params, at, j - 1).value);
    if i < j - 1 {
      WalkAdvances(name, opts, silent, params, at, i, j - 1);
    }
  }

  /** With any other name every run ends, from any values of the variables and whatever is
      readonly, and no more calls succeed than the operands have bytes. */
  lemma EveryRunEnds(env: Env, name: string, opts: string, silent: bool, params: seq<string>)
    requires name !in {OPTIND, CIND} && Addressable(params)
    ensures Calls(env, name, opts, silent, params, Bytes(params) + 1).None?
  {
    hide Calls, Walk, CursorOf;
    if Calls(env, name, opts, silent, params, Bytes(params) + 1).Some? {
      LongRunComesBack(env, name, opts, silent, params);
      var i: nat, j: nat :| SameAt(name, opts, silent, params, CursorOf(env), i, j);
      WalkAdvances(name, opts, silent, params, CursorOf(env), i, j);
    }
  }

  predicate Recurs(name: string, turn: Turn, at: Cursor)
    requires turn.Found?
  {
    && turn.order == ArgumentFirst
    && (name == OPTIND ==> at.charind == 0 && turn.after.charind == 0 && NumberIn(turn.report.name, 1) == at.optind)
    && (name == CIND ==> turn.after.charind > 0 && NumberIn(turn.report.name, 0) == at.charind)
  }

  /** The names OPTIND and the saved index: a turn comes straight back to its position exactly
      when the letter, read as a number, is the index the position had, and the turn ended the
      operand (OPTIND) or did not (the saved index). */
  lemma ComesBackAtOnce(name: string, opts: string, silent: bool, params: seq<string>, at: Cursor)
    requires name in {OPTIND, CIND} && TurnAt(opts, silent, params, at).Found?
    ensures (var turn := TurnAt(opts, silent, params, at);
             NextPosition(name, turn) == at <==> Recurs(name, turn, at))
  {
    hide Lookup, NumberIn;
  }

  function Shown(env: Env, name: string): string {
    if name in env.vars then env.vars[name] else ""
  }

  /** `while getopts ...; do ...; done`: the reports of the calls that return 0, then the
      variables after the call that does not. */
  function Session(env: Env, name: string, opts: string, silent: bool, params: seq<string>): (seq<Report>, Env)
    requires name !in {OPTIND, CIND} && Addressable(params) && Inside(params, CursorOf(env))
    decreases |params| + 1 - CursorOf(env).optind,
              (if CursorOf(env).optind <= |params| then |params[CursorOf(env).optind - 1]| else 0) - CursorOf(env).charind
  {
    var (after, outcome) := Call(env, name, opts, silent, params);
    if outcome == Status(0) then
      AcceptedCallAdvances(env, name, opts, silent, params);
      var (reports, last) := Session(after, name, opts, silent, params);
      ([Report(Shown(after, name), Get(after, OPTARG))] + reports, last)
    else ([], after)
  }

  function DecodeFrom(opts: string, silent: bool, params: seq<string>, at: Cursor): Decoded
    requires Inside(params, at)
  {
    if at.charind == 0 then Decode(opts, silent, params[at.optind - 1..])
    else Letters(opts, silent, params[at.optind - 1][at.charind..], params[at.optind..])
  }

  /** One turn peels one report off the reference. */
  lemma TurnPeels(opts: string, silent: bool, params: seq<string>, at: Cursor)
    requires Inside(params, at)
    ensures (var turn := TurnAt(opts, silent, params, at);
             var decoded := DecodeFrom(opts, silent, params, at);
             match turn
             case Crash => false
             case Over(next, _) => 1 <= next <= |params| + 1 && decoded == Decoded([], params[next - 1..])
             case Found(report, to, _) => Inside(params, to) && decoded == Then(report, DecodeFrom(opts, silent, params, to)))
  {
    TurnAdvances(opts, silent, params, at);
    var here := params[at.optind - 1..];
    if at.optind <= |params| {
      assert here[0] == params[at.optind - 1];
      assert here[1..] == params[at.optind..];
      if at.charind > 0 || IsCluster(here[0]) {
        LetterPeels(opts, silent, params, at.optind, if at.charind == 0 then 1 else at.charind);
      }
    }
  }

  lemma LetterPeels(opts: string, silent: bool, params: seq<string>, optind: nat, ci: nat)
    requires 1 <= optind <= |params| && 1 <= ci < |params[optind - 1]|
    ensures (var turn := LetterTurn(opts, silent, params, optind, ci);
             var decoded := Letters(opts, silent, params[optind - 1][ci..], params[optind..]);
             turn.Found? && Inside(params, turn.after)
             && decoded == Then(turn.report, DecodeFrom(opts, silent, params, turn.after)))
  {
    var arg := params[optind - 1];
    var letters := arg[ci..];
    assert letters[0] == arg[ci] && letters[1..] == arg[ci + 1..];
    if optind < |params| {
      assert params[optind..][1..] == params[optind + 1..];
    }
    if ci + 1 == |arg| {
      assert letters[1..] == "";
      assert Letters(opts, silent, letters[1..], params[optind..]) == Decode(opts, silent, params[optind..]);
    }
  }

  /** The reports of a run, and the operands its last OPTIND points at, are the reference's. */
  predicate SessionDecodes(env: Env, name: string, opts: string, silent: bool, params: seq<string>)
    requires Regular(env, name) && Addressable(params) && Inside(params, CursorOf(env))
  {
    var (reports, last) := Session(env, name, opts, silent, params);
    var decoded := DecodeFrom(opts, silent, params, CursorOf(env));
    && reports == decoded.reports
    && Regular(last, name)
    && Inside(params, CursorOf(last))
    && CursorOf(last).charind == 0
    && params[CursorOf(last).optind - 1..] == decoded.operands
  }

  /** Every run of the builtin ends, and its reports and final OPTIND are those of one
      left-to-right reading of the operands. */
  lemma {:induction false} SessionIsDecode(env: Env, name: string, opts: string, silent: bool, params: seq<string>)
    requires Regular(env, name) && Addressable(params) && Inside(params, CursorOf(env))
    ensures SessionDecodes(env, name, opts, silent, params)
    decreases |params| + 1 - CursorOf(env).optind,
              (if CursorOf(env).optind <= |params| then |params[CursorOf(env).optind - 1]| else 0) - CursorOf(env).charind
  {
    hide Session, Call, TurnAt, DecodeFrom, Then, Perform, Reading, Writes, CursorOf;
    SessionUnfolds(env, name, opts, silent, params);
    TurnPeels(opts, silent, params, CursorOf(env));
    var (after, outcome) := Call(env, name, opts, silent, params);
    if outcome == Status(0) {
      SessionIsDecode(after, name, opts, silent, params);
      ThenAdds(TurnAt(opts, silent, params, CursorOf(env)).report, DecodeFrom(opts, silent, params, CursorOf(after)));
    }
  }

  lemma SessionUnfolds(env: Env, name: string, opts: string, silent: bool, params: seq<string>)
    requires Regular(env, name) && Addressable(params) && Inside(params, CursorOf(env))
    ensures (var turn := TurnAt(opts, silent, params, CursorOf(env));
             var (after, outcome) := Call(env, name, opts, silent, params);
             match turn
             case Crash => false
             case Over(next, _) =>
               && outcome == Status(1)
               && Session(env, name, opts, silent, params) == ([], after)
               && Regular(after, name) && CursorOf(after) == Cursor(next, 0)
             case Found(report, to, _) =>
               && outcome == Status(0)
               && Regular(after, name) && CursorOf(after) == to && Before(CursorOf(env), to) && Inside(params, to)
               && (var (reports, last) := Session(after, name, opts, silent, params);
                   Session(env, name, opts, silent, params) == ([report] + reports, last)))
  {
    CallMeansTurn(env, name, opts, silent, params);
    TurnAdvances(opts, silent, params, CursorOf(env));
    hide Call, TurnAt, Perform, Reading, Writes, CursorOf;
  }

  lemma ThenAdds(r: Report, rest: Decoded)
    ensures Then(r, rest).reports == [r] + rest.reports && Then(r, rest).operands == rest.operands
  {
  }

  /** A run in the state a shell starts in: OPTIND is 1 and no position is saved. */
  lemma FreshRunIsDecode(env: Env, name: string, opts: string, silent: bool, params: seq<string>)
    requires Regular(env, name) && Addressable(params)
    requires Get(env, "OPTIND") == Some("1") && Get(env, "_GETOPTS_CIND") == None
    ensures CursorOf(env) == Cursor(1, 0)
    ensures (var (reports, last) := Session(env, name, opts, silent, params);
             && reports == Decode(opts, silent, params).reports
             && Inside(params, CursorOf(last)) && CursorOf(last).charind == 0
             && params[CursorOf(last).optind - 1..] == Decode(opts, silent, params).operands)
  {
    ParseInvertsText(1);
    assert CursorOf(env) == Cursor(1, 0);
    assert params[0..] == params;
    SessionIsDecode(env, name, opts, silent, params);
  }

  // ---------------------------------------------------------------- round trip

  datatype Item = Bare(letter: char) | Attached(letter: char, arg: string) | Separate(letter: char, arg: string)

  predicate Spellable(opts: string, item: Item) {
    item.letter != '-'
    && match item
       case Bare(c) => Lookup(opts, c) == Flag
       case Attached(c, arg) => Lookup(opts, c) == TakesArgument && arg != ""
       case Separate(c, arg) => Lookup(opts, c) == TakesArgument
  }

  function Spelled(item: Item): seq<string> {
    match item
    case Bare(c) => [['-', c]]
    case Attached(c, arg) => [['-', c] + arg]
    case Separate(c, arg) => [['-', c], arg]
  }

  function ReportOf(item: Item): Report {
    Report([item.letter], if item.Bare? then None else Some(item.arg))
  }

  function Spell(items: seq<Item>): seq<string> {
    if items == [] then [] else Spelled(items[0]) + Spell(items[1..])
  }

  function Reports(items: seq<Item>): seq<Report> {
    if items == [] then [] else [ReportOf(items[0])] + Reports(items[1..])
  }

  lemma BareReadsBack(opts: string, silent: bool, c: char, rest: seq<string>)
    requires c != '-' && Lookup(opts, c) == Flag
    ensures Decode(opts, silent, [['-', c]] + rest) == Then(Report([c], None), Decode(opts, silent, rest))
  {
    hide Lookup;
    var params := [['-', c]] + rest;
    assert params[1..] == rest && params[0][1..] == [c] && [c][1..] == "";
    assert Letters(opts, silent, "", rest) == Decode(opts, silent, rest);
  }

  lemma AttachedReadsBack(opts: string, silent: bool, c: char, arg: string, rest: seq<string>)
    requires c != '-' && Lookup(opts, c) == TakesArgument && arg != ""
    ensures Decode(opts, silent, [['-', c] + arg] + rest) == Then(Report([c], Some(arg)), Decode(opts, silent, rest))
  {
    hide Lookup;
    var params := [['-', c] + arg] + rest;
    assert params[1..] == rest && params[0][1..] == [c] + arg && ([c] + arg)[1..] == arg;
  }

  lemma SeparateReadsBack(opts: string, silent: bool, c: char, arg: string, rest: seq<string>)
    requires c != '-' && Lookup(opts, c) == TakesArgument
    ensures Decode(opts, silent, [['-', c], arg] + rest) == Then(Report([c], Some(arg)), Decode(opts, silent, rest))
  {
    hide Lookup;
    var params := [['-', c], arg] + rest;
    assert params[0][1..] == [c] && [c][1..] == "";
    assert params[1..] == [arg] + rest && params[1..][1..] == rest;
  }

  lemma ItemReadsBack(opts: string, silent: bool, item: Item, rest: seq<string>)
    requires Spellable(opts, item)
    ensures Decode(opts, silent, Spelled(item) + rest) == Then(ReportOf(item), Decode(opts, silent, rest))
  {
    hide Decode, Lookup, Then;
    match item
    case Bare(c) => BareReadsBack(opts, silent, c, rest);
    case Attached(c, arg) => AttachedReadsBack(opts, silent, c, arg, rest);
    case Separate(c, arg) => SeparateReadsBack(opts, silent, c, arg, rest);
  }

  /** Options written out in any of the three forms are read back as they were meant, and the
      operands after `--` are left alone whatever they look like. */
  lemma {:induction false} SpelledOptionsReadBack(opts: string, silent: bool, items: seq<Item>, operands: seq<string>)
    requires forall k :: 0 <= k < |items| ==> Spellable(opts, items[k])
    ensures Decode(opts, silent, Spell(items) + ["--"] + operands) == Decoded(Reports(items), operands)
  {
    hide Spelled, ReportOf, Spellable;
    var params := Spell(items) + ["--"] + operands;
    if items == [] {
      assert params[1..] == operands;
    } else {
      hide Decode;
      SpelledOptionsReadBack(opts, silent, items[1..], operands);
      var rest := Spell(items[1..]) + ["--"] + operands;
      ItemReadsBack(opts, silent, items[0], rest);
      assert params == Spelled(items[0]) + rest;
    }
  }

  // ---------------------------------------------------------------- what the script is told

  /** A leading colon of the option string asks for silence, and declares nothing. */
  lemma LeadingColonIsSilent(opts: string)
    ensures Silent(":" + opts) && Declared(":" + opts) == opts
    ensures opts != "" && opts[0] != ':' ==> !Silent(opts) && Declared(opts) == opts
    ensures !Silent("") && Declared("") == ""
  {
    assert (":" + opts)[1..] == opts;
  }

  /** A letter is declared with an argument if a colon follows it, without one otherwise, and a
      colon never is a letter. */
  lemma DeclaredLetters(before: string, c: char, after: string)
    requires c != ':' && c !in before
    ensures Lookup(before + [c] + ":" + after, c) == TakesArgument
    ensures after == "" || after[0] != ':' ==> Lookup(before + [c] + after, c) == Flag
    ensures Lookup(before, c) == Undeclared && Lookup(before, ':') == Undeclared
  {
    LookupNowhere(before, c);
    LookupNowhere(before, ':');
    LookupAtFirst(before + [c] + ":" + after, c, |before|);
    LookupAtFirst(before + [c] + after, c, |before|);
  }

  /** In silence an undeclared option is reported as `?` and a missing argument as `:`, each with
      the letter in OPTARG; otherwise both are reported as `?` and OPTARG is unset. */
  lemma BadOptionsAsReported(opts: string, c: char, rest: seq<string>)
    requires c != '-'
    ensures Lookup(opts, c) == Undeclared ==>
              && Decode(opts, true, [['-', c]] + rest) == Then(Report("?", Some([c])), Decode(opts, true, rest))
              && Decode(opts, false, [['-', c]] + rest) == Then(Report("?", None), Decode(opts, false, rest))
    ensures Lookup(opts, c) == TakesArgument ==>
              && Decode(opts, true, [['-', c]]) == Decoded([Report(":", Some([c]))], [])
              && Decode(opts, false, [['-', c]]) == Decoded([Report("?", None)], [])
  {
    hide Lookup;
    var params := [['-', c]] + rest;
    assert params[1..] == rest && params[0][1..] == [c] && [c][1..] == "";
    forall silent: bool ensures Letters(opts, silent, "", rest) == Decode(opts, silent, rest) {
    }
    assert [['-', c]][0][1..] == [c] && [['-', c]][1..] == [];
  }

  /** Flags may share a word, each reported in turn. */
  lemma ClustersComeApart(opts: string, silent: bool, c: char, letters: string, rest: seq<string>)
    requires c != '-' && Lookup(opts, c) == Flag && letters != "" && letters != "-"
    ensures Decode(opts, silent, [['-', c] + letters] + rest)
         == Then(Report([c], None), Decode(opts, silent, [['-'] + letters] + rest))
  {
    hide Lookup;
    var params, next := [['-', c] + letters] + rest, [['-'] + letters] + rest;
    assert params[1..] == rest && params[0][1..] == [c] + letters && ([c] + letters)[1..] == letters;
    assert next[1..] == rest && next[0][1..] == letters;
    assert next[0] != "--" by {
      assert next[0][1..] != "-";
    }
  }

  /** The first word that does not begin with a minus sign, or is only one, ends the options and is
      the first operand; so does `--`, which is none. */
  lemma OperandsEndTheOptions(opts: string, silent: bool, word: string, rest: seq<string>)
    ensures word == "" || word[0] != '-' || word == "-" ==>
              Decode(opts, silent, [word] + rest) == Decoded([], [word] + rest)
    ensures Decode(opts, silent, ["--"] + rest) == Decoded([], rest)
  {
    assert (["--"] + rest)[1..] == rest;
  }

  // ---------------------------------------------------------------- outside the protocol

  /** A saved character index that lies past its operand aborts the shell: exactly then, from
      any values of the variables. */
  lemma CrashesExactlyWhenStale(env: Env, name: string, opts: string, silent: bool, params: seq<string>)
    ensures Call(env, name, opts, silent, params).1 == Panic
       <==> (var at := CursorOf(env);
             1 <= at.optind <= |params| && at.charind > 0 && at.charind >= |params[at.optind - 1]|)
  {
  }

  /** Resetting only OPTIND in the middle of a cluster, as scripts do to start over, keeps the
      saved index: after the first letter of `-ab` it is 2, which `-a` does not have. */
  lemma ResettingOptindIsNotEnough(env: Env)
    requires Regular(env, "x") && Get(env, OPTIND) == Some("1") && Get(env, CIND) == None
    ensures (var after := Call(env, "x", "ab", false, ["-ab"]).0;
             Call(after.(vars := after.vars[OPTIND := "1"]), "x", "ab", false, ["-a"]).1 == Panic)
  {
    ParseInvertsText(1);
    CallMeansTurn(env, "x", "ab", false, ["-ab"]);
    LookupAtFirst("ab", 'a', 0);
    var after := Call(env, "x", "ab", false, ["-ab"]).0;
    assert CursorOf(after) == Cursor(1, 2);
    var reset := after.(vars := after.vars[OPTIND := "1"]);
    assert CursorOf(reset) == Cursor(1, 2);
    CrashesExactlyWhenStale(reset, "x", "ab", false, ["-a"]);
  }

  /** So a loop whose position recurs at once never ends. */
  lemma RecurringIsEndless(env: Env, name: string, opts: string, silent: bool, params: seq<string>)
    requires name in {OPTIND, CIND} && Addressable(params) && Writable(env, name)
    requires var turn := TurnAt(opts, silent, params, CursorOf(env));
             turn.Found? && Recurs(name, turn, CursorOf(env))
    ensures Endless(env, name, opts, silent, params)
  {
    hide CursorOf, Recurs, Endless, TurnAt;
    var at := CursorOf(env);
    ComesBackAtOnce(name, opts, silent, params, at);
    assert Walk(name, opts, silent, params, at, 0) == Some(at);
    assert Walk(name, opts, silent, params, at, 1) == Some(at);
    assert SameAt(name, opts, silent, params, at, 0, 1);
    RunsForeverExactly(env, name, opts, silent, params);
  }

  /** With OPTIND itself as the name operand `getopts a OPTIND` never gets past `-a`: the letter
      replaces the index, and a word that is not a number reads as 1. */
  lemma NamingOptindNeverEnds(env: Env)
    requires CursorOf(env) == Cursor(1, 0) && Writable(env, OPTIND)
    ensures Endless(env, OPTIND, "a", false, ["-a"])
  {
    hide CursorOf, Endless;
    LookupAtFirst("a", 'a', 0);
    assert DigitOf(Ten, "a"[0]) == None;
    assert NumberIn("a", 1) == 1;
    RecurringIsEndless(env, OPTIND, "a", false, ["-a"]);
  }

  /** With `-2 -a` it goes to and fro: the 2 moves on to `-a`, whose letter moves back to 1. */
  lemma NamingOptindGoesToAndFro(env: Env)
    requires CursorOf(env) == Cursor(1, 0) && Writable(env, OPTIND)
    ensures Endless(env, OPTIND, "2a", false, ["-2", "-a"])
  {
    hide CursorOf, Endless;
    var params := ["-2", "-a"];
    LookupAtFirst("2a", '2', 0);
    LookupAtFirst("2a", 'a', 1);
    assert DigitOf(Ten, "a"[0]) == None;
    assert NumberIn("a", 1) == 1;
    assert NumberIn("2", 1) == 2;
    assert Walk(OPTIND, "2a", false, params, Cursor(1, 0), 1) == Some(Cursor(2, 0));
    assert Walk(OPTIND, "2a", false, params, Cursor(1, 0), 2) == Some(Cursor(1, 0));
    assert SameAt(OPTIND, "2a", false, params, Cursor(1, 0), 0, 2);
    RunsForeverExactly(env, OPTIND, "2a", false, params);
  }
}
