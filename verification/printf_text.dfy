/** Formats and %b operands as they are written (src/builtin/printf.rs:141-372). */
module PrintfText {
  import opened Wrappers
  import opened Bytes
  import opened Decimal
  import opened Printf

  // ----- Escapes that are letters -----

  /** The letter after the backslash for the bytes that have one, by their codes. */
  function LetterFor(code: int): Option<char> {
    match code
    case 7 => Some('a')
    case 8 => Some('b')
    case 9 => Some('t')
    case 10 => Some('n')
    case 11 => Some('v')
    case 12 => Some('f')
    case 13 => Some('r')
    case 92 => Some('\\')
    case _ => None
  }

  function Escaped(c: char): string {
    if LetterFor(c as int).Some? then ['\\', LetterFor(c as int).value] else [c]
  }

  /** A %b operand for a text. */
  function OperandFor(text: string): string {
    if text == "" then "" else Escaped(text[0]) + OperandFor(text[1..])
  }

  /** A format for a text, with percent signs doubled as well. */
  function FormatFor(text: string): string {
    if text == "" then "" else (if text[0] == '%' then "%%" else Escaped(text[0])) + FormatFor(text[1..])
  }

  lemma LettersAreSimple(c: char)
    ensures LetterFor(c as int).Some? ==> Simple(LetterFor(c as int).value) == Some(c) && LetterFor(c as int).value !in {'c', '0'}
    ensures LetterFor(c as int).None? ==> c != '\\'
  {
  }

  /** The word stands at `i`, and `tail` after it. */
  lemma WordThenTail(s: string, i: nat, e: string, tail: string)
    requires i <= |s| && s[i..] == e + tail
    ensures i + |e| <= |s| && s[i + |e|..] == tail && forall k :: 0 <= k < |e| ==> s[i + k] == e[k]
  {
    assert s[i + |e|..] == s[i..][|e|..];
    assert forall k :: 0 <= k < |e| ==> s[i..][k] == e[k];
  }

  lemma ExpandsOne(c: char, s: string, i: nat)
    requires i + |Escaped(c)| <= |s| && forall k :: 0 <= k < |Escaped(c)| ==> s[i + k] == Escaped(c)[k]
    ensures Expand(s, i) == Cons([c], Expand(s, i + |Escaped(c)|))
  {
    hide Simple, LetterFor;
    LettersAreSimple(c);
    assert s[i + 0] == Escaped(c)[0];
    if LetterFor(c as int).Some? {
      assert s[i + 1] == Escaped(c)[1];
    }
  }

  lemma ExpandsRest(s: string, i: nat, rest: string)
    requires i <= |s| && s[i..] == rest
    requires rest == "" || (|rest| >= 2 && rest[0] == '\\' && rest[1] == 'c')
    ensures Expand(s, i) == ("", rest != "")
  {
    if rest != "" {
      assert s[i] == rest[0] && s[i + 1] == rest[1];
    }
  }

  /** Any text, escaped, is expanded to itself by %b; a `\c` after it stops the output there. */
  lemma {:induction false} OperandReadsBack(text: string, s: string, i: nat, rest: string)
    requires i <= |s| && s[i..] == OperandFor(text) + rest
    requires rest == "" || (|rest| >= 2 && rest[0] == '\\' && rest[1] == 'c')
    ensures Expand(s, i) == (text, rest != "")
    decreases |text|
  {
    hide Expand, Escaped;
    if text == "" {
      assert s[i..] == rest;
      ExpandsRest(s, i, rest);
    } else {
      var e, tail := Escaped(text[0]), OperandFor(text[1..]) + rest;
      assert s[i..] == e + tail;
      WordThenTail(s, i, e, tail);
      ExpandsOne(text[0], s, i);
      OperandReadsBack(text[1..], s, i + |e|, rest);
      assert text == [text[0]] + text[1..];
    }
  }

  function LiteralsOf(text: string): seq<Token> {
    if text == "" then [] else [Literal([text[0]])] + LiteralsOf(text[1..])
  }

  /** Any text, written as a format, is printed as it is, byte by byte. */
  lemma {:induction false} FormatReadsBack(text: string, s: string, i: nat)
    requires i <= |s| && s[i..] == FormatFor(text)
    ensures Tokens(s, i) == LiteralsOf(text)
    decreases |text|
  {
    if text == "" {
      assert i == |s|;
    } else {
      hide Simple, LetterFor, NumberAt, SpecEnd;
      var e := if text[0] == '%' then "%%" else Escaped(text[0]);
      LettersAreSimple(text[0]);
      assert s[i..] == e + FormatFor(text[1..]);
      assert forall k :: 0 <= k < |e| ==> s[i + k] == e[k] by {
        assert forall k :: 0 <= k < |e| ==> s[i..][k] == e[k];
      }
      assert s[i + |e|..] == s[i..][|e|..] == FormatFor(text[1..]);
      assert TokenAt(s, i) == (Literal([text[0]]), i + |e|);
      FormatReadsBack(text[1..], s, i + |e|);
    }
  }

  // ----- Octal escapes -----

  function OctalDigit(d: nat): char
    requires d < 8
  {
    "01234567"[d]
  }

  lemma ThreeDigits(s: string, i: nat, d2: nat, d1: nat, d0: nat)
    requires d2 < 8 && d1 < 8 && d0 < 8
    requires i + 3 <= |s| && s[i..i + 3] == [OctalDigit(d2), OctalDigit(d1), OctalDigit(d0)]
    ensures OctalRun(s, i, 3) == 3 && OctalByte(s[i..i + 3]) == (64 * d2 + 8 * d1 + d0) % 256
  {
    var t := s[i..i + 3];
    assert s[i] == t[0] && s[i + 1] == t[1] && s[i + 2] == t[2];
    RunOfThree(s, i);
    ByteOfThree(d2, d1, d0);
  }

  lemma RunOfThree(s: string, i: nat)
    requires i + 3 <= |s| && IsOctal(s[i]) && IsOctal(s[i + 1]) && IsOctal(s[i + 2])
    ensures OctalRun(s, i, 3) == 3
  {
    assert OctalRun(s, i + 3, 0) == 0;
    assert OctalRun(s, i + 2, 1) == 1;
    assert OctalRun(s, i + 1, 2) == 2;
  }

  lemma ByteOfThree(d2: nat, d1: nat, d0: nat)
    requires d2 < 8 && d1 < 8 && d0 < 8
    ensures OctalByte([OctalDigit(d2), OctalDigit(d1), OctalDigit(d0)]) == (64 * d2 + 8 * d1 + d0) % 256
  {
    hide OctalByte, OctalDigit;
    var c2, c1, c0 := OctalDigit(d2), OctalDigit(d1), OctalDigit(d0);
    OneMoreDigit([], d2);
    OneMoreDigit([c2], d1);
    OneMoreDigit([c2, c1], d0);
    assert [] + [c2] == [c2] && [c2] + [c1] == [c2, c1] && [c2, c1] + [c0] == [c2, c1, c0];
    assert OctalByte([c2]) == d2;
    assert OctalByte([c2, c1]) == 8 * d2 + d1;
  }

  lemma OneMoreDigit(t: string, d: nat)
    requires d < 8 && forall k :: 0 <= k < |t| ==> IsOctal(t[k])
    ensures IsOctal(OctalDigit(d)) && OctalByte("") == 0
    ensures OctalByte(t + [OctalDigit(d)]) == (8 * OctalByte(t) + d) % 256
  {
    var more := t + [OctalDigit(d)];
    assert more[..|more| - 1] == t;
    assert OctalDigit(d) as int - '0' as int == d;
  }

  /** Three octal digits after a backslash are that byte in a format, modulo 256; in a %b operand a
      0 comes before them. */
  lemma OctalEscapes(d2: nat, d1: nat, d0: nat, rest: string)
    requires d2 < 8 && d1 < 8 && d0 < 8
    ensures var digits := [OctalDigit(d2), OctalDigit(d1), OctalDigit(d0)];
            var byte := ((64 * d2 + 8 * d1 + d0) % 256) as char;
            && EscapeAt("\\" + digits + rest, 1) == ([byte], 3)
            && Expand("\\0" + digits + rest, 0) == Cons([byte], Expand("\\0" + digits + rest, 5))
  {
    var digits := [OctalDigit(d2), OctalDigit(d1), OctalDigit(d0)];
    var s, t := "\\" + digits + rest, "\\0" + digits + rest;
    assert s[1..4] == digits;
    ThreeDigits(s, 1, d2, d1, d0);
    assert t[2..5] == digits;
    ThreeDigits(t, 2, d2, d1, d0);
    assert s[1] == digits[0];
    hide OctalRun, OctalByte;
  }

  // ----- Numbered operands -----

  /** A number and a dollar sign after the percent sign. */
  lemma NumberIsRead(k: nat, format: string)
    requires k <= 0x7fff_ffff && format == "%" + Decimal.Text(k) + "$s"
    ensures NumberAt(format, 1) == (if k > 0 then Some(k - 1) else None, |format| - 1)
    ensures format[1] != '%'
  {
    hide ParseSigned, RunEnd;
    var t := Decimal.Text(k);
    ParseInvertsText(k);
    NumeralDenotes(Ten, k);
    forall j | 0 <= j < |t| ensures InClass(Digit, t[j]) {
      assert DigitOf(Ten, t[j]).Some?;
    }
    hide Decimal.Text, Numeral;
    assert forall j :: 1 <= j < 1 + |t| ==> format[j] == t[j - 1];
    DigitsEnd(format, 1, 1 + |t|);
    assert format[1..1 + |t|] == t;
  }

  lemma OneToken(format: string, numbered: Option<nat>)
    requires |format| >= 3 && format[0] == '%' && format[1] != '%' && format[|format| - 1] == 's'
    requires NumberAt(format, 1) == (numbered, |format| - 1)
    ensures Tokens(format, 0) == [Conversion(format, 's', numbered)]
  {
    hide NumberAt;
    var after := |format| - 1;
    NoDigits(format, after);
    assert SpecEnd(format, after) == after;
    assert format[0..after + 1] == format;
    assert TokenAt(format, 0) == (Conversion(format, 's', numbered), |format|);
    assert Tokens(format, |format|) == [];
  }

  lemma OneConversion(token: Token, args: seq<string>, base: nat)
    requires token.Conversion? && token.conv == 's'
    ensures PassOver([token], args, base, 0) == Pass([Emitted(token, args, base, 0)], Taken(token), false)
  {
    assert [token][1..] == [];
    assert PassOver([], args, base, Taken(token)) == Pass([], Taken(token), false);
  }

  /** `%k$s` is given the k-th operand of its round, an empty one if there is none; with 0 for k it
      takes the next in turn. */
  lemma NumberedOperand(k: nat, args: seq<string>, base: nat)
    requires k <= 0x7fff_ffff
    ensures var format := "%" + Decimal.Text(k) + "$s";
            PassOver(Tokens(format, 0), args, base, 0)
            == if k > 0 then
                 Pass([Formatted(format, 's', if base + (k - 1) < |args| then args[base + (k - 1)] else "", false)], 0, false)
               else Pass([Formatted(format, 's', if base < |args| then args[base] else "", true)], 1, false)
  {
    hide NumberAt, Tokens, PassOver;
    var format := "%" + Decimal.Text(k) + "$s";
    NumberIsRead(k, format);
    var numbered: Option<nat> := if k > 0 then Some(k - 1) else None;
    OneToken(format, numbered);
    OneConversion(Conversion(format, 's', numbered), args, base);
  }

  lemma DigitsEnd(s: string, i: nat, end: nat)
    requires i <= end < |s| && (forall k :: i <= k < end ==> InClass(Digit, s[k])) && !InClass(Digit, s[end])
    ensures RunEnd(Digit, s, i) == end
  {
  }

  lemma NoDigits(s: string, i: nat)
    requires i < |s| && !InClass(Digit, s[i])
    ensures RunEnd(Digit, s, i) == i
  {
  }

  // ----- Flags, width and precision -----

  predicate OnlyDigits(s: string) {
    forall k :: 0 <= k < |s| ==> InClass(Digit, s[k])
  }

  predicate OnlyFlags(s: string) {
    forall k :: 0 <= k < |s| ==> s[k] in "-+ 0#"
  }

  function PrecisionText(precision: Option<string>): string {
    if precision.None? then "" else "." + precision.value
  }

  /** Flags, a width and a precision before the letter belong to its conversion, which takes the
      next operand in turn. */
  lemma SpecIsWhole(flags: string, width: string, precision: Option<string>, conv: char)
    requires OnlyFlags(flags) && OnlyDigits(width) && (precision.Some? ==> OnlyDigits(precision.value))
    requires conv !in "-+ 0#.%$" && !InClass(Digit, conv)
    ensures var format := "%" + flags + width + PrecisionText(precision) + [conv];
            Tokens(format, 0) == [Conversion(format, conv, None)]
  {
    assert !InClass(Digit, '$') && !InClass(Digit, '%');
    hide Tokens, NumberAt, SpecEnd, InClass, PrecisionText;
    var tail := PrecisionText(precision);
    TailOf(precision);
    var format := "%" + flags + width + PrecisionText(precision) + [conv];
    var a, b := 1 + |flags|, 1 + |flags| + |width|;
    assert forall k :: 1 <= k < a ==> format[k] == flags[k - 1];
    assert forall k :: a <= k < b ==> format[k] == width[k - a];
    assert forall k :: b <= k < |format| - 1 ==> format[k] == tail[k - b];
    assert format[|format| - 1] == conv;
    SpecEndsBefore(format, a, b);
    NoDollar(format, 1);
    WholeToken(format);
  }

  lemma TailOf(precision: Option<string>)
    requires precision.Some? ==> OnlyDigits(precision.value)
    ensures var tail := PrecisionText(precision);
            tail == "" || (tail[0] == '.' && forall k :: 1 <= k < |tail| ==> InClass(Digit, tail[k]))
  {
  }

  /** Flags up to `a`, digits up to `b`, and from there only the last byte or a precision. */
  lemma SpecEndsBefore(s: string, a: nat, b: nat)
    requires 1 <= a <= b < |s| && (forall k :: 1 <= k < a ==> IsFlag(s[k])) && (forall k :: a <= k < b ==> InClass(Digit, s[k]))
    requires s[b] == '.' || b == |s| - 1
    requires forall k :: b < k < |s| - 1 ==> InClass(Digit, s[k])
    requires (var conv := s[|s| - 1]; !IsFlag(conv) && !InClass(Digit, conv) && conv != '.')
    ensures SpecEnd(s, 1) == |s| - 1
  {
    hide RunEnd, FlagsEnd;
    FlagsAndDigits(s, 1, a, b);
    DigitsEnd(s, FlagsEnd(s, 1), b);
    if b < |s| - 1 {
      DigitsEnd(s, b + 1, |s| - 1);
    }
  }

  lemma {:induction false} FlagsAndDigits(s: string, i: nat, a: nat, b: nat)
    requires i <= a <= b < |s| && (forall k :: i <= k < a ==> IsFlag(s[k])) && !IsFlag(s[b])
    ensures a <= FlagsEnd(s, i) <= b
    decreases |s| - i
  {
    if i < b && IsFlag(s[i]) {
      FlagsAndDigits(s, i + 1, if i < a then a else i + 1, b);
    }
  }

  lemma NoDollar(s: string, i: nat)
    requires i <= |s| && forall k :: i <= k < |s| ==> s[k] != '$'
    ensures NumberAt(s, i) == (None, i)
  {
  }

  lemma WholeToken(format: string)
    requires |format| >= 2 && format[0] == '%' && format[1] != '%'
    requires NumberAt(format, 1) == (None, 1) && SpecEnd(format, 1) == |format| - 1
    ensures Tokens(format, 0) == [Conversion(format, format[|format| - 1], None)]
  {
    hide NumberAt, SpecEnd;
    assert format[0..|format|] == format;
    assert TokenAt(format, 0) == (Conversion(format, format[|format| - 1], None), |format|);
    assert Tokens(format, |format|) == [];
  }
}
