/** Number parsing and formatting (src/bstr.rs). */
module Decimal {
  import opened Wrappers
  import opened Int64

  datatype Radix = Octal | Ten | Hex

  function Base(radix: Radix): nat {
    match radix
    case Octal => 8
    case Ten => 10
    case Hex => 16
  }

  /** `Base(radix) * n`, with the base as a literal in each case. */
  function Times(radix: Radix, n: int): int {
    match radix
    case Octal => 8 * n
    case Ten => 10 * n
    case Hex => 16 * n
  }

  /** The number without its last digit. */
  function Shorter(radix: Radix, n: nat): (q: nat)
    ensures n >= Base(radix) ==> 0 < q < n
    ensures n < Base(radix) ==> q == 0
  {
    match radix
    case Octal => n / 8
    case Ten => n / 10
    case Hex => n / 16
  }

  /** The last digit of the number. */
  function Last(radix: Radix, n: nat): (d: nat)
    ensures d < Base(radix)
    ensures n == Times(radix, Shorter(radix, n)) + d
  {
    match radix
    case Octal => n % 8
    case Ten => n % 10
    case Hex => n % 16
  }

  function DigitOf(radix: Radix, c: char): (d: Option<nat>)
    ensures d.Some? ==> d.value < Base(radix)
  {
    var v: int :=
      if '0' <= c <= '9' then c as int - '0' as int
      else if 'a' <= c <= 'f' then c as int - 'a' as int + 10
      else if 'A' <= c <= 'F' then c as int - 'A' as int + 10
      else 16;
    if v < Base(radix) then Some(v) else None
  }

  predicate AllDigits(radix: Radix, s: string)
  {
    forall k :: 0 <= k < |s| ==> DigitOf(radix, s[k]).Some?
  }

  /** The number a digit string denotes, most significant digit first. */
  function Value(radix: Radix, s: string): nat
    requires AllDigits(radix, s)
  {
    if s == [] then 0
    else Times(radix, Value(radix, s[..|s| - 1])) + DigitOf(radix, s[|s| - 1]).value
  }

  lemma {:induction false} PrefixValueIsNoLarger(radix: Radix, s: string, k: nat)
    requires AllDigits(radix, s) && k <= |s|
    ensures Value(radix, s[..k]) <= Value(radix, s)
  {
    if k == |s| {
      assert s[..k] == s;
    } else {
      PrefixValueIsNoLarger(radix, s[..|s| - 1], k);
      assert s[..|s| - 1][..k] == s[..k];
    }
  }

  /** What the unsigned parsers accept: a non-empty digit string that fits in an i64. */
  function ParseRadix(radix: Radix, s: string): Option<i64>
  {
    if s != [] && AllDigits(radix, s) && Value(radix, s) <= MAX then Some(Value(radix, s)) else None
  }

  /** What `parse_i64` accepts: an optional sign, then decimal digits. */
  function ParseSigned(s: string): Option<i64> {
    if s != [] && s[0] == '-' then
      match ParseRadix(Ten, s[1..])
      case None => None
      case Some(v) => Some(-v)
    else if s != [] && s[0] == '+' then ParseRadix(Ten, s[1..])
    else ParseRadix(Ten, s)
  }

  /** `parse_usize`: a decimal i64 that is not negative. */
  function ParseUsize(s: string): Option<nat> {
    match ParseSigned(s)
    case None => None
    case Some(v) => if v >= 0 then Some(v) else None
  }

  function CheckedTimes(radix: Radix, a: i64): Option<i64> {
    if MIN <= Times(radix, a) <= MAX then Some(Times(radix, a)) else None
  }

  function CheckedAdd(a: i64, b: int): Option<i64> {
    if MIN <= a + b <= MAX then Some(a + b) else None
  }

  /** The accumulation loop that the three parsers share. */
  method AccumulateDigits(radix: Radix, digits: string) returns (r: Option<i64>)
    requires digits != []
    ensures r == ParseRadix(radix, digits)
  {
    hide DigitOf;
    var result: i64 := 0;
    for k := 0 to |digits|
      invariant AllDigits(radix, digits[..k])
      invariant result == Value(radix, digits[..k])
    {
      var digit := DigitOf(radix, digits[k]);
      if digit.None? {
        return None;
      }
      assert digits[..k + 1][..k] == digits[..k];
      ghost var next := Value(radix, digits[..k + 1]);
      assert next == Times(radix, result) + digit.value;
      if AllDigits(radix, digits) {
        PrefixValueIsNoLarger(radix, digits, k + 1);
      }
      var scaled := CheckedTimes(radix, result);
      if scaled.None? {
        return None;
      }
      var sum := CheckedAdd(scaled.value, digit.value);
      if sum.None? {
        return None;
      }
      result := sum.value;
    }
    assert digits[..|digits|] == digits;
    return Some(result);
  }

  method ParseI64(s: string) returns (r: Option<i64>)
    ensures r == ParseSigned(s)
  {
    if |s| == 0 {
      return None;
    }
    var negative, digits := false, s;
    if s[0] == '-' {
      negative, digits := true, s[1..];
    } else if s[0] == '+' {
      digits := s[1..];
    }
    if |digits| == 0 {
      return None;
    }
    r := AccumulateDigits(Ten, digits);
    if negative && r.Some? {
      r := Some(-r.value);
    }
  }

  method ParseHexI64(bytes: string) returns (r: Option<i64>)
    ensures r == ParseRadix(Hex, bytes)
  {
    if |bytes| == 0 {
      return None;
    }
    r := AccumulateDigits(Hex, bytes);
  }

  method ParseOctalI64(bytes: string) returns (r: Option<i64>)
    ensures r == ParseRadix(Octal, bytes)
  {
    if |bytes| == 0 {
      return None;
    }
    r := AccumulateDigits(Octal, bytes);
  }

  function DigitChar(d: nat): (c: char)
    requires d < 16
  {
    if d < 10 then ('0' as int + d) as char else ('a' as int + d - 10) as char
  }

  lemma DigitRoundTrip(radix: Radix, d: nat)
    requires d < Base(radix)
    ensures DigitOf(radix, DigitChar(d)) == Some(d)
  {
  }

  /** The shortest numeral of `n`. */
  function Numeral(radix: Radix, n: nat): (s: string)
    ensures s != []
    decreases n
  {
    if n < Base(radix) then [DigitChar(n)]
    else Numeral(radix, Shorter(radix, n)) + [DigitChar(Last(radix, n))]
  }

  const DIGITS: string := "0123456789abcdef"
  const CAPITALS: string := "0123456789ABCDEF"

  /** Which digit is which, in either case. */
  lemma {:induction false} DigitsAsWritten(radix: Radix, d: nat)
    requires d < Base(radix)
    ensures Numeral(radix, d) == [DIGITS[d]]
    ensures DigitOf(radix, DIGITS[d]) == Some(d) && DigitOf(radix, CAPITALS[d]) == Some(d)
  {
  }

  lemma LastOfSum(radix: Radix, n: nat, d: nat)
    requires d < Base(radix)
    ensures Last(radix, Times(radix, n) + d) == d && Shorter(radix, Times(radix, n) + d) == n
  {
  }

  /** The last digit is written last. */
  lemma NumeralsArePositional(radix: Radix, n: nat, d: nat)
    requires n > 0 && d < Base(radix)
    ensures Numeral(radix, Base(radix) * n + d) == Numeral(radix, n) + [DIGITS[d]]
  {
    assert Times(radix, n) == Base(radix) * n;
    hide DigitOf, Last, Shorter, Times;
    LastOfSum(radix, n, d);
    DigitsAsWritten(radix, d);
    assert Base(radix) * n >= Base(radix);
    assert [DigitChar(d)] == [DIGITS[d]];
  }

  lemma {:induction false} NumeralDenotes(radix: Radix, n: nat)
    ensures AllDigits(radix, Numeral(radix, n))
    ensures Value(radix, Numeral(radix, n)) == n
    decreases n
  {
    var s := Numeral(radix, n);
    var last := Last(radix, n);
    DigitRoundTrip(radix, last);
    if n < Base(radix) {
      assert s[..|s| - 1] == [];
    } else {
      NumeralDenotes(radix, Shorter(radix, n));
      assert s[..|s| - 1] == Numeral(radix, Shorter(radix, n));
    }
  }

  /** A number below 10^k has at most k decimal digits. */
  lemma {:induction false} NumeralLength(n: nat, k: nat)
    requires 1 <= k && n < PowerOfTen(k)
    ensures |Numeral(Ten, n)| <= k
    decreases n
  {
    if n >= 10 {
      NumeralLength(n / 10, k - 1);
    }
  }

  function PowerOfTen(k: nat): nat {
    if k == 0 then 1 else 10 * PowerOfTen(k - 1)
  }

  /** Decimal text of a signed number, as `I64Buf::as_bytes` returns it. */
  function Text(v: int): (s: string)
    ensures s != []
  {
    if v < 0 then "-" + Numeral(Ten, -v) else Numeral(Ten, v)
  }

  lemma NumeralStartsWithDigit(radix: Radix, n: nat)
    ensures DigitOf(radix, Numeral(radix, n)[0]).Some?
  {
    NumeralDenotes(radix, n);
  }

  /** Formatting then parsing is the identity on every i64 except the minimum, whose text
      the parser rejects because it accumulates the magnitude before negating it. */
  lemma ParseInvertsText(v: i64)
    ensures ParseSigned(Text(v)) == if v == MIN then None else Some(v)
  {
    var n: nat := if v < 0 then -(v as int) else v;
    NumeralDenotes(Ten, n);
    var s := Text(v);
    if v < 0 {
      assert s[1..] == Numeral(Ten, n);
    } else {
      assert DigitOf(Ten, s[0]).Some?;
    }
  }

  /** Octal and hexadecimal output parses back exactly when it fits in an i64. */
  lemma ParseInvertsNumeral(radix: Radix, n: nat)
    ensures ParseRadix(radix, Numeral(radix, n)) == if n <= MAX then Some(n) else None
  {
    NumeralDenotes(radix, n);
  }

  const U64_MAX: int := 0xffff_ffff_ffff_ffff

  lemma U64HasTwentyDigits(n: nat)
    requires n <= U64_MAX
    ensures |Numeral(Ten, n)| <= 20
  {
    assert PowerOfTen(4) == 10_000;
    assert PowerOfTen(8) == 10_000_0000;
    assert PowerOfTen(12) == 10_000_0000_0000;
    assert PowerOfTen(16) == 10_000_0000_0000_0000;
    assert PowerOfTen(20) == 10_000_0000_0000_0000_0000;
    NumeralLength(n, 20);
  }

  /** Fixed 21-byte buffer filled from the right edge. */
  class I64Buf {
    const buf: array<char>
    var start: nat

    ghost predicate Valid()
      reads this
    {
      buf.Length == 21 && start <= 21
    }

    function AsBytes(): string
      requires Valid()
      reads this, buf
    {
      buf[start..]
    }

    constructor FromU64(val: nat)
      requires val <= U64_MAX
      ensures Valid() && fresh(buf)
      ensures AsBytes() == Numeral(Ten, val)
      ensures start >= 1
    {
      buf := new char[21];
      start := 21;
      new;
      U64HasTwentyDigits(val);
      if val == 0 {
        start := start - 1;
        buf[start] := '0';
        assert buf[start..] == ['0'] == Numeral(Ten, 0);
      } else {
        var v := val;
        while v > 0
          invariant start <= 21
          invariant Numeral(Ten, val) == (if v > 0 then Numeral(Ten, v) else "") + buf[start..]
          decreases v
        {
          assert start >= 1 by {
            assert |Numeral(Ten, val)| == |Numeral(Ten, v)| + (21 - start);
          }
          ghost var tail := buf[start..];
          start := start - 1;
          buf[start] := DigitChar(v % 10);
          assert buf[start..] == [DigitChar(v % 10)] + tail;
          v := v / 10;
        }
        assert |Numeral(Ten, val)| == 21 - start;
      }
    }

    constructor New(val: i64)
      ensures Valid() && fresh(buf)
      ensures AsBytes() == Text(val)
    {
      var magnitude := if val < 0 then -(val as int) else val as int;
      var b := new I64Buf.FromU64(magnitude);
      buf := b.buf;
      start := b.start;
      new;
      if val < 0 {
        ghost var tail := buf[start..];
        start := start - 1;
        buf[start] := '-';
        assert buf[start..] == ['-'] + tail;
      }
    }
  }

  function Reversed(s: string): (r: string)
    ensures |r| == |s|
    ensures forall k :: 0 <= k < |s| ==> r[k] == s[|s| - 1 - k]
  {
    seq(|s|, k requires 0 <= k < |s| => s[|s| - 1 - k])
  }

  /** The push loop of `push_u64_octal` and `push_u64_hex`: digits are appended low first,
      then the appended part is reversed. */
  method PushDigits(radix: Radix, buf: string, val: nat) returns (out: string)
    ensures out == buf + Numeral(radix, val)
  {
    if val == 0 {
      return buf + "0";
    }
    assert Reversed("") == "";
    assert Numeral(radix, val) == Numeral(radix, val) + "";
    var start := |buf|;
    out := buf;
    hide Reversed, Numeral, Last, Shorter;
    var v := val;
    ghost var low := "";
    while v > 0
      invariant out == buf + low
      invariant Numeral(radix, val) == if v > 0 then Numeral(radix, v) + Reversed(low) else Reversed(low)
      decreases v
    {
      NumeralStep(radix, v, low);
      low := low + [DigitChar(Last(radix, v))];
      out := out + [DigitChar(Last(radix, v))];
      v := Shorter(radix, v);
    }
    assert out[..start] == buf && out[start..] == low;
    out := out[..start] + Reversed(out[start..]);
  }

  lemma NumeralStep(radix: Radix, v: nat, low: string)
    requires v > 0
    ensures Numeral(radix, v) + Reversed(low)
         == (var digits := Reversed(low + [DigitChar(Last(radix, v))]);
             if Shorter(radix, v) > 0 then Numeral(radix, Shorter(radix, v)) + digits else digits)
  {
    ReversedSnoc(low, DigitChar(Last(radix, v)));
  }

  lemma ReversedSnoc(s: string, c: char)
    ensures Reversed(s + [c]) == [c] + Reversed(s)
  {
  }

  function Zeros(n: nat): (s: string)
    ensures |s| == n && forall k :: 0 <= k < n ==> s[k] == '0'
  {
    seq(n, _ => '0')
  }

  function PadCount(width: nat, digits: nat): nat {
    if digits < width then width - digits else 0
  }

  /** `push_u64_octal_padded`: resize, move the digits right, fill the gap with zeros. */
  method PushOctalPadded(buf: string, val: nat, width: nat) returns (out: string)
    ensures out == buf + Zeros(PadCount(width, |Numeral(Octal, val)|)) + Numeral(Octal, val)
  {
    var start := |buf|;
    out := PushDigits(Octal, buf, val);
    var digits := |out| - start;
    if digits < width {
      var pad := width - digits;
      var moved := out[start..];
      out := out + seq(pad, _ => '\0');
      out := out[..start + pad] + moved;
      for k := start to start + pad
        invariant |out| == start + pad + digits
        invariant out[..start] == buf
        invariant forall i :: start <= i < k ==> out[i] == '0'
        invariant out[start + pad..] == Numeral(Octal, val)
      {
        out := out[k := '0'];
      }
      assert out == out[..start] + out[start..start + pad] + out[start + pad..];
    }
  }
}
