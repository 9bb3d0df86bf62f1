/** Byte strings and the byte classes of the shell's lexical tables. A byte is a `char`;
    nothing in the models depends on a character being at most 255. */
module Bytes {

  datatype ByteClass = Space | Digit | HexDigit | NameChar

  predicate IsDigit(c: char) {
    '0' <= c <= '9'
  }

  predicate IsNameStart(c: char) {
    'a' <= c <= 'z' || 'A' <= c <= 'Z' || c == '_'
  }

  predicate InClass(cls: ByteClass, c: char) {
    match cls
    case Space => c == ' ' || c == '\t' || c == '\n' || c == '\r' || c == '\U{0C}'
    case Digit => IsDigit(c)
    case HexDigit => IsDigit(c) || 'a' <= c <= 'f' || 'A' <= c <= 'F'
    case NameChar => IsNameStart(c) || IsDigit(c)
  }

  /** The end of the longest run of `cls` bytes that starts at `i`. */
  function RunEnd(cls: ByteClass, s: string, i: nat): (j: nat)
    requires i <= |s|
    ensures i <= j <= |s|
    ensures forall k :: i <= k < j ==> InClass(cls, s[k])
    ensures j < |s| ==> !InClass(cls, s[j])
    decreases |s| - i
  {
    if i < |s| && InClass(cls, s[i]) then RunEnd(cls, s, i + 1) else i
  }

  /** `s[i..]` begins with `word`. */
  predicate LooksAt(s: string, i: nat, word: string) {
    i + |word| <= |s| && s[i..i + |word|] == word
  }

  /** The byte at `i`, if there is one, is `c`. */
  predicate At(s: string, i: nat, c: char) {
    i < |s| && s[i] == c
  }

  lemma LooksAtOne(s: string, i: nat, c: char)
    ensures LooksAt(s, i, [c]) <==> At(s, i, c)
  {
    if i < |s| {
      assert s[i..i + 1] == [s[i]];
    }
  }

  lemma LooksAtTwo(s: string, i: nat, c: char, d: char)
    ensures LooksAt(s, i, [c, d]) <==> At(s, i, c) && At(s, i + 1, d)
  {
    if i + 1 < |s| {
      assert s[i..i + 2] == [s[i], s[i + 1]];
    }
  }
}
