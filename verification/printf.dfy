/** The printf driver (src/builtin/printf.rs:7-51, 141-370): scanning a format, handing out
    operands, and reusing the format while operands remain. */
module Printf {
  import opened Wrappers
  import opened Bytes
  import opened Decimal

  // ---------------------------------------------------------------- escapes

  /** The escapes that the format and %b share. */
  function Simple(c: char): Option<char> {
    match c
    case '\\' => Some('\\')
    case 'a' => Some('\U{07}')
    case 'b' => Some('\U{08}')
    case 'f' => Some('\U{0C}')
    case 'n' => Some('\n')
    case 'r' => Some('\r')
    case 't' => Some('\t')
    case 'v' => Some('\U{0B}')
    case _ => None
  }

  predicate IsOctal(c: char) {
    '0' <= c <= '7'
  }

  /** How many of the first `limit` bytes at `i` are octal digits without a break. */
  function OctalRun(s: string, i: nat, limit: nat): (n: nat)
    ensures n <= limit && i + n <= if i <= |s| then |s| else i
    ensures forall k :: i <= k < i + n ==> IsOctal(s[k])
    decreases limit
  {
    if limit > 0 && i < |s| && IsOctal(s[i]) then 1 + OctalRun(s, i + 1, limit - 1) else 0
  }

  /** `val.wrapping_mul(8).wrapping_add(digit)` on a byte. */
  function OctalByte(digits: string): (v: nat)
    requires forall k :: 0 <= k < |digits| ==> IsOctal(digits[k])
    ensures v < 256
  {
    if digits == "" then 0
    else (8 * OctalByte(digits[..|digits| - 1]) + (digits[|digits| - 1] as int - '0' as int)) % 256
  }

  method ScanOctal(s: string, start: nat) returns (val: nat, count: nat)
    requires start <= |s|
    ensures count == OctalRun(s, start, 3)
    ensures val == OctalByte(s[start..start + count])
  {
    val, count := 0, 0;
    while start + count < |s| && count < 3 && IsOctal(s[start + count])
      invariant count <= 3 && start + count <= |s|
      invariant OctalRun(s, start, 3) == count + OctalRun(s, start + count, 3 - count)
      invariant forall k :: start <= k < start + count ==> IsOctal(s[k])
      invariant val == OctalByte(s[start..start + count])
      decreases 3 - count
    {
      assert s[start..start + count + 1][..count] == s[start..start + count];
      val := (8 * val + (s[start + count] as int - '0' as int)) % 256;
      count := count + 1;
    }
  }

  /** What a backslash at `start - 1` of the format stands for, and how many bytes follow it. */
  function EscapeAt(s: string, start: nat): (r: (string, nat))
    requires start <= |s|
    ensures start + r.1 <= |s|
  {
    if start == |s| then ("\\", 0)
    else if Simple(s[start]).Some? then ([Simple(s[start]).value], 1)
    else if IsOctal(s[start]) then
      var n := OctalRun(s, start, 3);
      ([OctalByte(s[start..start + n]) as char], n)
    else (['\\', s[start]], 1)
  }

  method PrintfFormatEscape(bytes: string, start: nat) returns (text: string, advance: nat)
    requires start <= |bytes|
    ensures (text, advance) == EscapeAt(bytes, start)
  {
    if start >= |bytes| {
      return "\\", 0;
    }
    var simple := Simple(bytes[start]);
    if simple.Some? {
      return [simple.value], 1;
    }
    if IsOctal(bytes[start]) {
      var val, count := ScanOctal(bytes, start);
      return [val as char], count;
    }
    return ['\\', bytes[start]], 1;
  }

  /** The operand of %b from `i` on: its expansion and whether `\c` cut it short. */
  function Expand(s: string, i: nat): (string, bool)
    requires i <= |s|
    decreases |s| - i
  {
    if i == |s| then ("", false)
    else if s[i] != '\\' then Cons([s[i]], Expand(s, i + 1))
    else if i + 1 == |s| then ("\\", false)
    else if s[i + 1] == 'c' then ("", true)
    else if s[i + 1] == '0' then
      var n := OctalRun(s, i + 2, 3);
      Cons([OctalByte(s[i + 2..i + 2 + n]) as char], Expand(s, i + 2 + n))
    else if Simple(s[i + 1]).Some? then Cons([Simple(s[i + 1]).value], Expand(s, i + 2))
    else Cons(['\\', s[i + 1]], Expand(s, i + 2))
  }

  function Cons(text: string, rest: (string, bool)): (string, bool) {
    (text + rest.0, rest.1)
  }

  lemma ConsTwice(a: string, b: string, rest: (string, bool))
    ensures Cons(a, Cons(b, rest)) == Cons(a + b, rest)
  {
    assert a + (b + rest.0) == a + b + rest.0;
  }

  method PrintfExpandB(s: string) returns (out: string, sawC: bool)
    ensures (out, sawC) == Expand(s, 0)
  {
    out, sawC := "", false;
    var i := 0;
    assert "" + Expand(s, 0).0 == Expand(s, 0).0;
    while i < |s|
      invariant i <= |s|
      invariant Expand(s, 0) == Cons(out, Expand(s, i))
      decreases |s| - i
    {
      ghost var from := i;
      var text;
      if s[i] == '\\' {
        if i + 1 >= |s| {
          return out + "\\", false;
        }
        var c := s[i + 1];
        if c == 'c' {
          assert out + "" == out;
          return out, true;
        } else if c == '0' {
          var val, count := ScanOctal(s, i + 2);
          assert s[i + 2..i + 2 + OctalRun(s, i + 2, 3)] == s[i + 2..i + 2 + count];
          text, i := [val as char], i + 2 + count;
        } else if Simple(c).Some? {
          text, i := [Simple(c).value], i + 2;
        } else {
          text, i := ['\\', c], i + 2;
        }
      } else {
        text, i := [s[i]], i + 1;
      }
      assert Expand(s, from) == Cons(text, Expand(s, i));
      ConsTwice(out, text, Expand(s, i));
      out := out + text;
    }
    assert out + "" == out;
  }

  predicate Stops(arg: string) {
    Expand(arg, 0).1
  }

  // ---------------------------------------------------------------- the format

  datatype Token = Literal(text: string) | Conversion(spec: string, conv: char, numbered: Option<nat>)

  predicate IsFlag(c: char) {
    c == '-' || c == '+' || c == ' ' || c == '0' || c == '#'
  }

  function FlagsEnd(s: string, i: nat): (j: nat)
    requires i <= |s|
    ensures i <= j <= |s|
    decreases |s| - i
  {
    if i < |s| && IsFlag(s[i]) then FlagsEnd(s, i + 1) else i
  }

  /** An `n$` prefix at `i`: the operand it names, counted from zero, and where it ends. A
      number that is zero or does not fit is dropped, and the conversion counts as unnumbered. */
  function NumberAt(s: string, i: nat): (r: (Option<nat>, nat))
    requires i <= |s|
    ensures i <= r.1 <= |s|
  {
    var e := RunEnd(Digit, s, i);
    if e > i && At(s, e, '$') then
      var n := ParseUsize(s[i..e]);
      (if n.Some? && n.value > 0 then Some(n.value - 1) else None, e + 1)
    else (None, i)
  }

  /** The end of flags, width and precision. */
  function SpecEnd(s: string, i: nat): (j: nat)
    requires i <= |s|
    ensures i <= j <= |s|
  {
    var width := RunEnd(Digit, s, FlagsEnd(s, i));
    if At(s, width, '.') then RunEnd(Digit, s, width + 1) else width
  }

  function TokenAt(s: string, i: nat): (r: (Token, nat))
    requires i < |s|
    ensures i < r.1 <= |s|
  {
    if s[i] == '\\' then
      var (text, advance) := EscapeAt(s, i + 1);
      (Literal(text), i + 1 + advance)
    else if s[i] != '%' then (Literal([s[i]]), i + 1)
    else if At(s, i + 1, '%') then (Literal("%"), i + 2)
    else
      var (numbered, after) := NumberAt(s, i + 1);
      var e := SpecEnd(s, after);
      if e == |s| then (Literal(s[i..]), e) else (Conversion(s[i..e + 1], s[e], numbered), e + 1)
  }

  function Tokens(s: string, i: nat): seq<Token>
    requires i <= |s|
    decreases |s| - i
  {
    if i == |s| then [] else [TokenAt(s, i).0] + Tokens(s, TokenAt(s, i).1)
  }

  /** `c`: how many conversions take the next operand in turn. */
  function Unnumbered(tokens: seq<Token>): nat {
    if tokens == [] then 0
    else (if tokens[0].Conversion? && tokens[0].numbered.None? then 1 else 0) + Unnumbered(tokens[1..])
  }

  // ---------------------------------------------------------------- one pass

  datatype Emit = Text(text: string) | Formatted(spec: string, conv: char, arg: string, inTurn: bool)

  /** `printf_get_arg`: an operand that is not there reads as empty. */
  function Operand(args: seq<string>, index: nat): string {
    if index < |args| then args[index] else ""
  }

  datatype Pass = Pass(emits: seq<Emit>, consumed: nat, cut: bool)

  function Emitted(token: Token, args: seq<string>, base: nat, consumed: nat): Emit {
    match token
    case Literal(text) => Text(text)
    case Conversion(spec, conv, numbered) =>
      Formatted(spec, conv, Operand(args, base + (if numbered.Some? then numbered.value else consumed)), numbered.None?)
  }

  function Taken(token: Token): nat {
    if token.Conversion? && token.numbered.None? then 1 else 0
  }

  predicate Cuts(e: Emit) {
    e.Formatted? && e.conv == 'b' && Stops(e.arg)
  }

  function Then(e: Emit, rest: Pass): Pass {
    rest.(emits := [e] + rest.emits)
  }

  /** The tokens in order, up to a %b whose operand holds `\c`. */
  function PassOver(tokens: seq<Token>, args: seq<string>, base: nat, consumed: nat): Pass {
    if tokens == [] then Pass([], consumed, false)
    else
      var e := Emitted(tokens[0], args, base, consumed);
      var consumed' := consumed + Taken(tokens[0]);
      if Cuts(e) then Pass([e], consumed', true) else Then(e, PassOver(tokens[1..], args, base, consumed'))
  }

  method SkipDigits(s: string, i: nat) returns (j: nat)
    requires i <= |s|
    ensures j == RunEnd(Digit, s, i)
  {
    j := i;
    while j < |s| && InClass(Digit, s[j])
      invariant i <= j <= |s| && RunEnd(Digit, s, i) == RunEnd(Digit, s, j)
    {
      j := j + 1;
    }
  }

  method SkipFlags(s: string, i: nat) returns (j: nat)
    requires i <= |s|
    ensures j == FlagsEnd(s, i)
  {
    j := i;
    while j < |s| && IsFlag(s[j])
      invariant i <= j <= |s| && FlagsEnd(s, i) == FlagsEnd(s, j)
    {
      j := j + 1;
    }
  }

  /** Lines 173-186: an operand number and its dollar sign. */
  method ScanNumber(bytes: string, saved: nat) returns (numbered: Option<nat>, i: nat)
    requires saved <= |bytes|
    ensures (numbered, i) == NumberAt(bytes, saved)
  {
    hide RunEnd, ParseSigned;
    numbered := None;
    i := SkipDigits(bytes, saved);
    if i < |bytes| && bytes[i] == '$' && i > saved {
      var n := ParseI64(bytes[saved..i]);
      if n.Some? && n.value > 0 {
        numbered := Some(n.value - 1);
      }
      i := i + 1;
    } else {
      i := saved;
    }
  }

  /** Lines 170-206: a conversion specification after its percent sign. */
  method ScanConversion(bytes: string, specStart: nat) returns (token: Token, i: nat)
    requires specStart < |bytes| && bytes[specStart] == '%' && !At(bytes, specStart + 1, '%')
    ensures (token, i) == TokenAt(bytes, specStart)
  {
    hide RunEnd, FlagsEnd, NumberAt;
    var numbered;
    numbered, i := ScanNumber(bytes, specStart + 1);
    i := SkipFlags(bytes, i);
    i := SkipDigits(bytes, i);
    if i < |bytes| && bytes[i] == '.' {
      i := SkipDigits(bytes, i + 1);
    }
    if i >= |bytes| {
      return Literal(bytes[specStart..]), i;
    }
    return Conversion(bytes[specStart..i + 1], bytes[i], numbered), i + 1;
  }

  method PrintfFormat(format: string, args: seq<string>, argBase: nat)
    returns (out: seq<Emit>, argConsumed: nat, stop: bool, cut: bool)
    ensures Pass(out, argConsumed, cut) == PassOver(Tokens(format, 0), args, argBase, 0)
    ensures stop == (cut || argBase + argConsumed >= |args|)
  {
    out, argConsumed, cut := [], 0, false;
    var i := 0;
    ghost var want := PassOver(Tokens(format, 0), args, argBase, 0);
    while i < |format| && !cut
      invariant i <= |format|
      invariant if cut then want == Pass(out, argConsumed, true)
                else want == Before(out, PassOver(Tokens(format, i), args, argBase, argConsumed))
      decreases |format| - i
    {
      ghost var from := i;
      assert Tokens(format, from)[1..] == Tokens(format, TokenAt(format, from).1);
      var token: Token;
      if format[i] == '\\' {
        var text, advance := PrintfFormatEscape(format, i + 1);
        token, i := Literal(text), i + 1 + advance;
      } else if format[i] == '%' {
        if i + 1 < |format| && format[i + 1] == '%' {
          token, i := Literal("%"), i + 2;
        } else {
          token, i := ScanConversion(format, i);
        }
      } else {
        token, i := Literal([format[i]]), i + 1;
      }
      assert (token, i) == TokenAt(format, from);
      var e;
      e, argConsumed, cut := Hand(token, args, argBase, argConsumed);
      BeforeThen(out, e, PassOver(Tokens(format, i), args, argBase, argConsumed));
      out := out + [e];
    }
    stop := cut || argBase + argConsumed >= |args|;
  }

  /** Lines 208-228: the operand a conversion gets, and whether a %b operand stops printf. */
  method Hand(token: Token, args: seq<string>, argBase: nat, argConsumed: nat)
    returns (e: Emit, consumed: nat, cut: bool)
    ensures e == Emitted(token, args, argBase, argConsumed)
    ensures consumed == argConsumed + Taken(token)
    ensures cut == Cuts(e)
  {
    consumed, cut := argConsumed, false;
    match token {
      case Literal(text) =>
        e := Text(text);
      case Conversion(spec, conv, numbered) =>
        var index := if numbered.Some? then numbered.value else consumed;
        if numbered.None? {
          consumed := consumed + 1;
        }
        var arg := Operand(args, argBase + index);
        e := Formatted(spec, conv, arg, numbered.None?);
        if conv == 'b' {
          var _, sawC := PrintfExpandB(arg);
          cut := sawC;
        }
    }
  }

  function Before(out: seq<Emit>, rest: Pass): Pass {
    rest.(emits := out + rest.emits)
  }

  lemma BeforeThen(out: seq<Emit>, e: Emit, rest: Pass)
    ensures Before(out, Then(e, rest)) == Before(out + [e], rest)
  {
    assert out + ([e] + rest.emits) == out + [e] + rest.emits;
  }

  // ---------------------------------------------------------------- all passes

  datatype Run = Run(emits: seq<Emit>, passes: nat, cut: bool)

  function Append(first: Pass, rest: Option<Run>): Option<Run> {
    match rest
    case None => None
    case Some(r) => Some(Run(first.emits + r.emits, r.passes + 1, r.cut))
  }

  /** The driver, watched for at most `limit` passes; `None` while it is still running. */
  function Drive(tokens: seq<Token>, args: seq<string>, base: nat, limit: nat): Option<Run>
    decreases limit
  {
    if limit == 0 then None
    else
      var p := PassOver(tokens, args, base, 0);
      if p.cut || base + p.consumed >= |args| then Some(Run(p.emits, 1, p.cut))
      else Append(p, Drive(tokens, args, base + p.consumed, limit - 1))
  }

  /** `printf_builtin` with a bound on the passes that are watched. The source's assertion
      that operands remain whenever it goes round again cannot fail. */
  method PrintfBuiltin(format: string, args: seq<string>, limit: nat) returns (r: Option<Run>)
    ensures r == Drive(Tokens(format, 0), args, 0, limit)
  {
    var argIdx: nat, passes: nat := 0, 0;
    var emits: seq<Emit> := [];
    ghost var tokens := Tokens(format, 0);
    ghost var whole := Drive(tokens, args, 0, limit);
    JoinedNothing(whole);
    hide PassOver, Tokens, Joined, Append, Drive;
    while passes < limit
      invariant passes <= limit
      invariant whole == Joined(emits, passes, Drive(tokens, args, argIdx, limit - passes))
    {
      DriveUnfolds(tokens, args, argIdx, limit - passes, emits, passes);
      var out, consumed, stop, cut := PrintfFormat(format, args, argIdx);
      emits, passes := emits + out, passes + 1;
      if stop {
        return Some(Run(emits, passes, cut));
      }
      argIdx := argIdx + consumed;
      assert argIdx < |args|;
    }
    return None;
  }

  /** One more pass of the driver, behind what it has already done. */
  lemma DriveUnfolds(tokens: seq<Token>, args: seq<string>, base: nat, limit: nat, emits: seq<Emit>, passes: nat)
    requires limit > 0
    ensures (var p := PassOver(tokens, args, base, 0);
             Joined(emits, passes, Drive(tokens, args, base, limit))
             == if p.cut || base + p.consumed >= |args| then Some(Run(emits + p.emits, passes + 1, p.cut))
                else Joined(emits + p.emits, passes + 1, Drive(tokens, args, base + p.consumed, limit - 1)))
  {
    hide PassOver;
    var p := PassOver(tokens, args, base, 0);
    if !p.cut && base + p.consumed < |args| {
      JoinedAppend(emits, passes, p, Drive(tokens, args, base + p.consumed, limit - 1));
    }
  }

  function Joined(emits: seq<Emit>, passes: nat, rest: Option<Run>): Option<Run> {
    match rest
    case None => None
    case Some(r) => Some(Run(emits + r.emits, passes + r.passes, r.cut))
  }

  lemma JoinedNothing(rest: Option<Run>)
    ensures Joined([], 0, rest) == rest
  {
    if rest.Some? {
      assert [] + rest.value.emits == rest.value.emits;
    }
  }

  lemma JoinedAppend(emits: seq<Emit>, passes: nat, p: Pass, rest: Option<Run>)
    ensures Joined(emits, passes, Append(p, rest)) == Joined(emits + p.emits, passes + 1, rest)
  {
    match rest
    case None =>
    case Some(r) => assert emits + (p.emits + r.emits) == emits + p.emits + r.emits;
  }

  // ---------------------------------------------------------------- when it stops

  lemma {:induction false} PassTakesInTurn(tokens: seq<Token>, args: seq<string>, base: nat, consumed: nat)
    ensures (var p := PassOver(tokens, args, base, consumed);
             consumed <= p.consumed <= consumed + Unnumbered(tokens)
             && (!p.cut ==> p.consumed == consumed + Unnumbered(tokens)))
  {
    if tokens != [] && !Cuts(Emitted(tokens[0], args, base, consumed)) {
      PassTakesInTurn(tokens[1..], args, base, consumed + Taken(tokens[0]));
    }
  }

  /** No conversion takes operands in turn, there are operands, and no `\\c` stops the pass. */
  predicate LoopsForever(tokens: seq<Token>, args: seq<string>) {
    Unnumbered(tokens) == 0 && args != [] && !PassOver(tokens, args, 0, 0).cut
  }

  lemma {:induction false} NeverFinishes(tokens: seq<Token>, args: seq<string>, limit: nat)
    requires LoopsForever(tokens, args)
    ensures Drive(tokens, args, 0, limit) == None
    decreases limit
  {
    PassTakesInTurn(tokens, args, 0, 0);
    if limit > 0 {
      NeverFinishes(tokens, args, limit - 1);
    }
  }

  lemma {:induction false} FinishesWithin(tokens: seq<Token>, args: seq<string>, base: nat, limit: nat)
    requires Unnumbered(tokens) > 0 && limit >= 1 && limit + base >= |args|
    ensures Drive(tokens, args, base, limit).Some?
    decreases limit
  {
    PassTakesInTurn(tokens, args, base, 0);
    var p := PassOver(tokens, args, base, 0);
    if !p.cut && base + p.consumed < |args| {
      FinishesWithin(tokens, args, base + p.consumed, limit - 1);
    }
  }

  /** printf returns if and only if the format takes operands in turn, or there are none, or
      the first pass is stopped by `\\c`. `printf 'hi\\n' a` and `printf '%1$s' a` never return. */
  lemma ReturnsExactlyWhen(tokens: seq<Token>, args: seq<string>)
    ensures (exists limit: nat :: Drive(tokens, args, 0, limit).Some?) <==> !LoopsForever(tokens, args)
  {
    if LoopsForever(tokens, args) {
      forall limit: nat ensures Drive(tokens, args, 0, limit) == None {
        NeverFinishes(tokens, args, limit);
      }
    } else if Unnumbered(tokens) > 0 {
      FinishesWithin(tokens, args, 0, |args| + 1);
    } else {
      PassTakesInTurn(tokens, args, 0, 0);
      assert Drive(tokens, args, 0, 1).Some?;
    }
  }

  /** A format without a conversion and one operand: the shell hangs. */
  lemma PlainTextWithAnOperandHangs(limit: nat)
    ensures Drive(Tokens("hi", 0), ["a"], 0, limit) == None
  {
    assert TokenAt("hi", 1) == (Literal("i"), 2);
    assert Tokens("hi", 1) == [Literal("i")];
    assert TokenAt("hi", 0) == (Literal("h"), 1);
    assert Tokens("hi", 0) == [Literal("h"), Literal("i")];
    assert [Literal("h"), Literal("i")][1..] == [Literal("i")];
    assert [Literal("i")][1..] == [];
    NeverFinishes(Tokens("hi", 0), ["a"], limit);
  }

  // ---------------------------------------------------------------- who gets which operand

  /** The operands that went to conversions in turn. */
  function Handed(emits: seq<Emit>): seq<string> {
    if emits == [] then []
    else HandedBy(emits[0]) + Handed(emits[1..])
  }

  function HandedBy(e: Emit): seq<string> {
    if e.Formatted? && e.inTurn then [e.arg] else []
  }

  lemma HandedUnfolds(emits: seq<Emit>)
    requires emits != []
    ensures Handed(emits) == HandedBy(emits[0]) + Handed(emits[1..])
  {
  }

  lemma Regroup(a: seq<string>, b: seq<string>, c: seq<string>)
    ensures a + (b + c) == a + b + c
  {
  }

  lemma {:induction false} HandedJoins(a: seq<Emit>, b: seq<Emit>)
    ensures Handed(a + b) == Handed(a) + Handed(b)
  {
    if a == [] {
      assert a + b == b;
    } else {
      HandedUnfolds(a);
      HandedUnfolds(a + b);
      hide Handed, HandedBy;
      HandedJoins(a[1..], b);
      assert (a + b)[1..] == a[1..] + b;
      Regroup(HandedBy(a[0]), Handed(a[1..]), Handed(b));
    }
  }

  /** Operands `from` to `to`, the missing ones empty. */
  function Slice(args: seq<string>, from: nat, to: nat): (r: seq<string>)
    ensures |r| == if from <= to then to - from else 0
  {
    if from <= to then seq(to - from, k requires 0 <= k => Operand(args, from + k)) else []
  }

  lemma {:induction false} PassHandsSlice(tokens: seq<Token>, args: seq<string>, base: nat, consumed: nat)
    ensures (var p := PassOver(tokens, args, base, consumed);
             Handed(p.emits) == Slice(args, base + consumed, base + p.consumed))
  {
    hide PassOver, Handed, Slice, Emitted, Cuts, Then, Taken;
    if tokens == [] {
      NothingHanded(args, base, consumed);
    } else {
      var e := Emitted(tokens[0], args, base, consumed);
      var consumed' := consumed + Taken(tokens[0]);
      PassUnfolds(tokens, args, base, consumed);
      HandedAlone(tokens[0], args, base, consumed);
      if !Cuts(e) {
        var rest := PassOver(tokens[1..], args, base, consumed');
        PassHandsSlice(tokens[1..], args, base, consumed');
        PassTakesInTurn(tokens[1..], args, base, consumed');
        HandOn(e, rest, args, base + consumed, base + consumed', base + rest.consumed);
      }
    }
  }

  lemma NothingHanded(args: seq<string>, base: nat, consumed: nat)
    ensures PassOver([], args, base, consumed) == Pass([], consumed, false)
    ensures Handed([]) == Slice(args, base + consumed, base + consumed)
  {
  }

  lemma HandOn(e: Emit, rest: Pass, args: seq<string>, a: nat, b: nat, c: nat)
    requires a <= b <= c && Handed([e]) == Slice(args, a, b) && Handed(rest.emits) == Slice(args, b, c)
    ensures Handed(Then(e, rest).emits) == Slice(args, a, c) && Then(e, rest).consumed == rest.consumed
  {
    hide Handed, Slice;
    HandedJoins([e], rest.emits);
    SliceJoins(args, a, b, c);
  }

  lemma PassUnfolds(tokens: seq<Token>, args: seq<string>, base: nat, consumed: nat)
    requires tokens != []
    ensures (var e := Emitted(tokens[0], args, base, consumed);
             var consumed' := consumed + Taken(tokens[0]);
             PassOver(tokens, args, base, consumed)
             == if Cuts(e) then Pass([e], consumed', true) else Then(e, PassOver(tokens[1..], args, base, consumed')))
  {
  }

  lemma HandedAlone(token: Token, args: seq<string>, base: nat, consumed: nat)
    ensures Handed([Emitted(token, args, base, consumed)]) == Slice(args, base + consumed, base + consumed + Taken(token))
  {
    var e := Emitted(token, args, base, consumed);
    assert [e][1..] == [];
    HandedUnfolds([e]);
  }

  /** max(1, ceil(n / c)) */
  function PassCount(n: nat, c: nat): (k: nat)
    requires c >= 1
    decreases n
  {
    if n <= c then 1 else 1 + PassCount(n - c, c)
  }

  lemma {:induction false} PassCountIsCeiling(n: nat, c: nat)
    requires c >= 1
    ensures n <= PassCount(n, c) * c
    ensures PassCount(n, c) > 1 ==> (PassCount(n, c) - 1) * c < n
    decreases n
  {
    if n > c {
      PassCountIsCeiling(n - c, c);
      var k := PassCount(n - c, c);
      assert (k + 1) * c == k * c + c && (k + 1 - 1) * c == (k - 1) * c + c;
    }
  }

  /** Every run, stopped or not, hands out the operands from `base` on in order, one to each
      conversion that takes one in turn, and empty ones once they are used up. */
  lemma {:induction false} HandedInOrder(tokens: seq<Token>, args: seq<string>, base: nat, limit: nat)
    requires Drive(tokens, args, base, limit).Some?
    ensures (var handed := Handed(Drive(tokens, args, base, limit).value.emits);
             handed == Slice(args, base, base + |handed|))
    decreases limit
  {
    hide PassOver, Handed, Slice;
    var p := PassOver(tokens, args, base, 0);
    PassHandsSlice(tokens, args, base, 0);
    if !p.cut && base + p.consumed < |args| {
      var rest := Drive(tokens, args, base + p.consumed, limit - 1).value;
      HandedInOrder(tokens, args, base + p.consumed, limit - 1);
      HandedJoins(p.emits, rest.emits);
      SliceJoins(args, base, base + p.consumed, base + p.consumed + |Handed(rest.emits)|);
    }
  }

  lemma SliceJoins(args: seq<string>, from: nat, middle: nat, to: nat)
    requires from <= middle <= to
    ensures Slice(args, from, middle) + Slice(args, middle, to) == Slice(args, from, to)
  {
  }

  /** A run makes at most max(1, ceil(n / c)) passes over the n operands from `base` on; a
      run that `\\c` does not stop makes exactly that many, and every pass hands out c. */
  lemma {:induction false} PassesAreCounted(tokens: seq<Token>, args: seq<string>, base: nat, limit: nat)
    requires base <= |args| && Drive(tokens, args, base, limit).Some? && Unnumbered(tokens) >= 1
    ensures (var run := Drive(tokens, args, base, limit).value;
             var k := PassCount(|args| - base, Unnumbered(tokens));
             run.passes <= k
             && (!run.cut ==> run.passes == k && |Handed(run.emits)| == k * Unnumbered(tokens)))
    decreases limit
  {
    hide PassOver, Handed, Unnumbered, Slice;
    var c := Unnumbered(tokens);
    var p := PassOver(tokens, args, base, 0);
    PassTakesInTurn(tokens, args, base, 0);
    PassHandsSlice(tokens, args, base, 0);
    if !p.cut && base + p.consumed < |args| {
      var rest := Drive(tokens, args, base + p.consumed, limit - 1).value;
      PassesAreCounted(tokens, args, base + p.consumed, limit - 1);
      HandedJoins(p.emits, rest.emits);
      OneMoreTime(PassCount(|args| - base - c, c), c);
    }
  }

  lemma OneMoreTime(k: nat, c: nat)
    ensures (k + 1) * c == k * c + c
  {
  }

  /** The whole run from the first operand. */
  lemma EveryOperandReachesOneConversion(tokens: seq<Token>, args: seq<string>, limit: nat)
    requires Unnumbered(tokens) >= 1 && limit >= |args| + 1
    ensures Drive(tokens, args, 0, limit).Some?
    ensures (var run := Drive(tokens, args, 0, limit).value;
             var k := PassCount(|args|, Unnumbered(tokens));
             && run.passes <= k
             && (!run.cut ==>
                  run.passes == k && args <= Handed(run.emits)
                  && |Handed(run.emits)| == k * Unnumbered(tokens)))
  {
    var c := Unnumbered(tokens);
    FinishesWithin(tokens, args, 0, limit);
    HandedInOrder(tokens, args, 0, limit);
    PassesAreCounted(tokens, args, 0, limit);
    PassCountIsCeiling(|args|, c);
    var run := Drive(tokens, args, 0, limit).value;
    if !run.cut {
      var h := Handed(run.emits);
      assert |h| >= |args|;
      assert h[..|args|] == args;
    }
  }
}
