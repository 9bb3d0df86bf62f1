/** Shell quoting (src/builtin/alias.rs) against a reader of the standard's quoting rules:
    escape character and single quotes, sections 2.2.1 and 2.2.2 of XCU. */
module Quoting {
  import opened Wrappers

  // ----- What the shell writes -----

  /** The body of a quoted string: a single quote is written as '\'' . */
  function Inner(value: string): string {
    if value == "" then ""
    else (if value[0] == '\'' then "'\\''" else [value[0]]) + Inner(value[1..])
  }

  function Quoted(value: string): string {
    "'" + Inner(value) + "'"
  }

  method ShellQuote(value: string) returns (out: string)
    ensures out == Quoted(value)
  {
    if |value| == 0 {
      return "''";
    }
    out := "'";
    for k := 0 to |value|
      invariant out + Inner(value[k..]) == "'" + Inner(value)
    {
      assert value[k..][0] == value[k] && value[k..][1..] == value[k + 1..];
      ghost var before := out;
      if value[k] == '\'' {
        out := out + "'\\''";
      } else {
        out := out + [value[k]];
      }
      assert before + Inner(value[k..]) == out + Inner(value[k + 1..]);
    }
    assert value[|value|..] == "";
    assert out + "" == out;
    out := out + "'";
  }

  predicate Safe(c: char) {
    'a' <= c <= 'z' || 'A' <= c <= 'Z' || '0' <= c <= '9'
    || c == '_' || c == '/' || c == '.' || c == '-' || c == '+' || c == ':' || c == ','
  }

  predicate NeedsQuoting(value: string) {
    value == "" || exists k :: 0 <= k < |value| && !Safe(value[k])
  }

  method ShellQuoteIfNeeded(value: string) returns (out: string)
    ensures out == Shown(value)
  {
    if NeedsQuoting(value) {
      out := ShellQuote(value);
    } else {
      out := value;
    }
  }

  function Shown(value: string): string {
    if NeedsQuoting(value) then Quoted(value) else value
  }

  // ----- How a shell reads it -----

  /** Characters that, unquoted, end a word or mean something other than themselves. */
  predicate Special(c: char) {
    c in {'|', '&', ';', '<', '>', '(', ')', '$', '`', '"', ' ', '\t', '\n', '*', '?', '[', '#', '~', '=', '%'}
  }

  /** Reads one word, removing quotes; None when the text is not a single finished word.
      A backslash before a newline is a continuation, not a character. */
  function ReadWord(s: string): Option<string> {
    if s == "" then Some("")
    else if s[0] == '\'' then ReadQuoted(s[1..])
    else if s[0] == '\\' then
      if |s| == 1 then None
      else if s[1] == '\n' then ReadWord(s[2..])
      else Prefixed(s[1], ReadWord(s[2..]))
    else if Special(s[0]) then None
    else Prefixed(s[0], ReadWord(s[1..]))
  }

  /** Inside single quotes every character up to the next single quote is literal. */
  function ReadQuoted(s: string): Option<string> {
    if s == "" then None
    else if s[0] == '\'' then ReadWord(s[1..])
    else Prefixed(s[0], ReadQuoted(s[1..]))
  }

  function Prefixed(c: char, rest: Option<string>): Option<string> {
    match rest
    case None => None
    case Some(r) => Some([c] + r)
  }

  // ----- The theorems -----

  lemma ReadOn(c: char, s: string)
    ensures c == '\'' ==> ReadWord([c] + s) == ReadQuoted(s) && ReadQuoted([c] + s) == ReadWord(s)
    ensures c != '\'' ==> ReadQuoted([c] + s) == Prefixed(c, ReadQuoted(s))
  {
    hide Special;
    assert ([c] + s)[1..] == s;
  }

  lemma ReadEscaped(c: char, s: string)
    requires c != '\n'
    ensures ReadWord("\\" + [c] + s) == Prefixed(c, ReadWord(s))
  {
    hide Special;
    assert ("\\" + [c] + s)[2..] == s;
  }

  /** The four characters that stand for a single quote close the quotes, escape one, and open
      them again. */
  lemma ReadQuoteMark(s: string)
    ensures ReadQuoted("'\\''" + s) == Prefixed('\'', ReadQuoted(s))
  {
    hide ReadWord, ReadQuoted;
    ReadOn('\'', "\\''" + s);
    assert "'\\''" + s == ['\''] + ("\\''" + s);
    ReadEscaped('\'', "'" + s);
    assert "\\''" + s == "\\" + ['\''] + ("'" + s);
    ReadOn('\'', s);
    assert "'" + s == ['\''] + s;
  }

  lemma {:induction false} InnerReads(value: string)
    ensures ReadQuoted(Inner(value) + "'") == Some(value)
  {
    hide Special;
    if value == "" {
      assert "'"[1..] == "";
    } else {
      hide ReadWord, ReadQuoted;
      var c, rest := value[0], Inner(value[1..]) + "'";
      InnerReads(value[1..]);
      assert [c] + value[1..] == value;
      if c == '\'' {
        assert Inner(value) + "'" == "'\\''" + rest;
        ReadQuoteMark(rest);
      } else {
        assert Inner(value) + "'" == [c] + rest;
        ReadOn(c, rest);
      }
    }
  }

  /** Whatever the value, a shell that reads its quoted form back gets the value, as one word. */
  lemma QuotedReadsBack(value: string)
    ensures ReadWord(Quoted(value)) == Some(value)
    ensures Quoted(value) != ""
  {
    InnerReads(value);
    assert Quoted(value)[1..] == Inner(value) + "'";
  }

  lemma {:induction false} SafeReads(value: string)
    requires forall k :: 0 <= k < |value| ==> Safe(value[k])
    ensures ReadWord(value) == Some(value)
  {
    if value != "" {
      SafeReads(value[1..]);
      assert [value[0]] + value[1..] == value;
    }
  }

  lemma ShownReadsBack(value: string)
    ensures ReadWord(Shown(value)) == Some(value) && Shown(value) != ""
  {
    if NeedsQuoting(value) {
      QuotedReadsBack(value);
    } else {
      SafeReads(value);
    }
  }

  /** A value is shown as it is exactly when it is not empty and has only letters, digits and a few
      harmless marks; any other is shown between single quotes. */
  lemma ShownAsItIs(value: string)
    ensures Shown(value) == value <==>
              value != "" && forall k :: 0 <= k < |value| ==>
                'a' <= value[k] <= 'z' || 'A' <= value[k] <= 'Z' || '0' <= value[k] <= '9' || value[k] in "_/.-+:,"
    ensures Shown(value) != value ==> Shown(value)[0] == '\'' && Shown(value)[|Shown(value)| - 1] == '\''
  {
    if NeedsQuoting(value) {
      QuotedIsLonger(value);
    }
  }

  lemma {:induction false} QuotedIsLonger(value: string)
    ensures |Inner(value)| >= |value|
    ensures |Quoted(value)| > |value| && Quoted(value)[0] == '\'' && Quoted(value)[|Quoted(value)| - 1] == '\''
  {
    if value != "" {
      QuotedIsLonger(value[1..]);
    }
  }

  /** The line `alias` prints: the name, `=`, and text that reads back as the alias's value. */
  method FormatAliasDefinition(name: string, value: string) returns (line: string)
    ensures |line| > |name| && line[..|name|] == name && line[|name|] == '='
    ensures ReadWord(line[|name| + 1..]) == Some(value)
  {
    var quoted := ShellQuote(value);
    line := name + "=" + quoted;
    QuotedReadsBack(value);
    assert line[|name| + 1..] == quoted;
  }
}
