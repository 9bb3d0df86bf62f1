/** The splitting half of the read builtin (src/builtin/read.rs:263-419): one value for each
    variable, with IFS given as a list of byte sequences. */
module ReadSplit {
  import opened Wrappers
  import opened ReadLine

  // ---------------------------------------------------------------- IFS

  datatype IfsChar = IfsChar(text: string, blank: bool)

  predicate IsBlank(c: char) {
    c == ' ' || c == '\t' || c == '\n'
  }

  /** What `decompose_read_ifs` yields in any locale: non-empty sequences, of which exactly the
      one-byte space, tab and newline count as white space. */
  predicate Decomposed(ifs: seq<IfsChar>) {
    forall k :: 0 <= k < |ifs| ==> DecomposedChar(ifs[k])
  }

  predicate DecomposedChar(ic: IfsChar) {
    ic.text != "" && ic.blank == IsBlank(ic.text[0]) && (ic.blank ==> |ic.text| == 1)
  }

  type Ifs = ifs: seq<IfsChar> | Decomposed(ifs)

  const DEFAULT_IFS: Ifs := [IfsChar(" ", true), IfsChar("\t", true), IfsChar("\n", true)]

  function UnquotedTail(bytes: seq<Byte>): (r: string)
    ensures |r| <= |bytes|
    ensures forall k {:trigger r[k]} :: 0 <= k < |r| ==> bytes[k] == Byte(r[k], false)
  {
    if bytes == [] || bytes[0].quoted then "" else [bytes[0].value] + UnquotedTail(bytes[1..])
  }

  /** The first entry of the list that starts the text. */
  function Find(ifs: Ifs, text: string): (r: Option<IfsChar>)
    ensures r.Some? ==> 1 <= |r.value.text| <= |text|
    decreases |ifs|
  {
    if ifs == [] then None
    else if ifs[0].text <= text then Some(ifs[0])
    else Find(ifs[1..], text)
  }

  /** The separator at the front of the bytes, if they start with an unquoted one. */
  function Separator(ifs: Ifs, bytes: seq<Byte>): (r: Option<IfsChar>)
    ensures r.Some? ==> 1 <= |r.value.text| <= |bytes|
  {
    Find(ifs, UnquotedTail(bytes))
  }

  lemma {:induction false} FoundIsListed(ifs: Ifs, text: string)
    ensures (var r := Find(ifs, text); r.Some? ==> r.value in ifs && DecomposedChar(r.value) && r.value.text <= text)
    decreases |ifs|
  {
    if ifs != [] && !(ifs[0].text <= text) {
      FoundIsListed(ifs[1..], text);
    }
  }

  /** A separator is an entry of IFS spelled out in unquoted bytes. */
  lemma SeparatorIsListed(ifs: Ifs, bytes: seq<Byte>)
    ensures (var r := Separator(ifs, bytes);
             r.Some? ==>
               (r.value in ifs && DecomposedChar(r.value)
                && forall k :: 0 <= k < |r.value.text| ==> bytes[k] == Byte(r.value.text[k], false)))
  {
    FoundIsListed(ifs, UnquotedTail(bytes));
  }

  // ---------------------------------------------------------------- the reference splitter

  function SkipBlanks(ifs: Ifs, bytes: seq<Byte>): (r: seq<Byte>)
    ensures |r| <= |bytes|
    decreases |bytes|
  {
    var m := Separator(ifs, bytes);
    if m.Some? && m.value.blank then SkipBlanks(ifs, bytes[1..]) else bytes
  }

  predicate IsBlankByte(ifs: Ifs, b: Byte) {
    !b.quoted && IfsChar([b.value], true) in ifs
  }

  function StripBlanks(ifs: Ifs, bytes: seq<Byte>): (r: seq<Byte>)
    ensures r <= bytes
  {
    if bytes != [] && IsBlankByte(ifs, bytes[|bytes| - 1]) then StripBlanks(ifs, bytes[..|bytes| - 1]) else bytes
  }

  function Trim(ifs: Ifs, bytes: seq<Byte>): string {
    Values(StripBlanks(ifs, SkipBlanks(ifs, bytes)))
  }

  /** How far the bytes go without a separator. */
  function FieldLength(ifs: Ifs, bytes: seq<Byte>): (n: nat)
    ensures n <= |bytes|
  {
    if bytes == [] || Separator(ifs, bytes).Some? then 0 else 1 + FieldLength(ifs, bytes[1..])
  }

  lemma {:induction false} FieldEndsAtSeparator(ifs: Ifs, bytes: seq<Byte>)
    ensures (var n := FieldLength(ifs, bytes); n < |bytes| ==> Separator(ifs, bytes[n..]).Some?)
  {
    if bytes != [] && Separator(ifs, bytes).None? {
      FieldEndsAtSeparator(ifs, bytes[1..]);
      var n := FieldLength(ifs, bytes);
      assert bytes[1..][n - 1..] == bytes[n..];
    } else {
      assert bytes[0..] == bytes;
    }
  }

  lemma {:induction false} SkippedIsClean(ifs: Ifs, bytes: seq<Byte>)
    ensures (var m := Separator(ifs, SkipBlanks(ifs, bytes)); m.Some? ==> !m.value.blank)
    decreases |bytes|
  {
    var m := Separator(ifs, bytes);
    if m.Some? && m.value.blank {
      SkippedIsClean(ifs, bytes[1..]);
    }
  }

  /** What follows the separator at the front. When `absorb` holds, white space and an
      adjacent other separator delimit together, as section 2.6.5 of XCU has it. */
  function AfterSeparator(absorb: bool, ifs: Ifs, bytes: seq<Byte>): (r: seq<Byte>)
    requires Separator(ifs, bytes).Some?
    ensures |r| < |bytes|
  {
    var m := Separator(ifs, bytes).value;
    var rest := SkipBlanks(ifs, bytes[|m.text|..]);
    var m' := Separator(ifs, rest);
    if absorb && m.blank && m'.Some? then SkipBlanks(ifs, rest[|m'.value.text|..]) else rest
  }

  function Fields(absorb: bool, ifs: Ifs, bytes: seq<Byte>, n: nat): (r: seq<string>)
    requires n >= 1
    ensures 1 <= |r| <= n
    decreases n
  {
    if n == 1 || bytes == [] then [Trim(ifs, bytes)]
    else
      var k := FieldLength(ifs, bytes);
      FieldEndsAtSeparator(ifs, bytes);
      [Values(bytes[..k])]
      + Fields(absorb, ifs, if k == |bytes| then [] else AfterSeparator(absorb, ifs, bytes[k..]), n - 1)
  }

  function Blanks(n: nat): (r: seq<string>)
    ensures |r| == n && forall k :: 0 <= k < n ==> r[k] == ""
  {
    seq(n, _ => "")
  }

  function Padded(values: seq<string>, n: nat): (r: seq<string>)
    requires |values| <= n
    ensures |r| == n
  {
    values + Blanks(n - |values|)
  }

  function Split(absorb: bool, ifs: Ifs, bytes: seq<Byte>, n: nat): (r: seq<string>)
    ensures |r| == n
  {
    if n == 0 then []
    else if ifs == [] then Padded([Values(bytes)], n)
    else Padded(Fields(absorb, ifs, SkipBlanks(ifs, bytes), n), n)
  }

  // ---------------------------------------------------------------- the implementation

  method FindReadIfsAt(ifsChars: Ifs, bytes: string) returns (r: Option<IfsChar>)
    ensures r == Find(ifsChars, bytes)
  {
    for i := 0 to |ifsChars|
      invariant Find(ifsChars, bytes) == Find(ifsChars[i..], bytes)
    {
      var ic := ifsChars[i];
      if |bytes| >= |ic.text| && bytes[..|ic.text|] == ic.text {
        return Some(ic);
      }
      assert ifsChars[i..][1..] == ifsChars[i + 1..];
    }
    return None;
  }

  method UnquotedTailAt(bytes: seq<Byte>, start: nat) returns (out: string)
    requires start <= |bytes|
    ensures out == UnquotedTail(bytes[start..])
  {
    out := "";
    for i := start to |bytes|
      invariant UnquotedTail(bytes[start..]) == out + UnquotedTail(bytes[i..])
    {
      if bytes[i].quoted {
        return;
      }
      assert bytes[i..][1..] == bytes[i + 1..];
      out := out + [bytes[i].value];
    }
  }

  method SkipReadIfsWs(bytes: seq<Byte>, ifsChars: Ifs, index: nat) returns (index': nat)
    requires index <= |bytes|
    ensures index <= index' <= |bytes| && bytes[index'..] == SkipBlanks(ifsChars, bytes[index..])
  {
    index' := index;
    while index' < |bytes| && !bytes[index'].quoted
      invariant index <= index' <= |bytes|
      invariant SkipBlanks(ifsChars, bytes[index'..]) == SkipBlanks(ifsChars, bytes[index..])
    {
      var tail := UnquotedTailAt(bytes, index');
      var found := FindReadIfsAt(ifsChars, tail);
      if found.Some? && found.value.blank {
        SeparatorIsListed(ifsChars, bytes[index'..]);
        assert bytes[index'..][1..] == bytes[index' + 1..];
        index' := index' + |found.value.text|;
      } else {
        return;
      }
    }
    if index' < |bytes| {
      assert UnquotedTail(bytes[index'..]) == "";
    } else {
      assert bytes[index'..] == [];
    }
  }

  /** Whether some white-space entry equals the byte before `end` (lines 395-413). */
  method EndsInBlank(bytes: seq<Byte>, ifsChars: Ifs, start: nat, end: nat) returns (found: bool)
    requires start <= end <= |bytes|
    ensures found <==> end > start && IsBlankByte(ifsChars, bytes[end - 1])
  {
    for i := 0 to |ifsChars|
      invariant forall k :: 0 <= k < i ==> !(end > start && !bytes[end - 1].quoted && ifsChars[k] == IfsChar([bytes[end - 1].value], true))
    {
      var ic := ifsChars[i];
      assert DecomposedChar(ic);
      if ic.blank && end >= start + |ic.text| {
        var b := bytes[end - 1];
        if b.value == ic.text[0] && !b.quoted {
          assert ic == IfsChar([b.value], true);
          return true;
        }
      }
    }
    return false;
  }

  lemma StripUnfolds(ifs: Ifs, bytes: seq<Byte>)
    ensures StripBlanks(ifs, bytes)
         == if bytes != [] && IsBlankByte(ifs, bytes[|bytes| - 1]) then StripBlanks(ifs, bytes[..|bytes| - 1]) else bytes
  {
  }

  method TrimReadIfsWs(bytes: seq<Byte>, ifsChars: Ifs) returns (r: string)
    ensures r == Trim(ifsChars, bytes)
  {
    hide StripBlanks, SkipBlanks, Separator, IsBlankByte, Decomposed;
    var start := SkipReadIfsWs(bytes, ifsChars, 0);
    assert bytes[0..] == bytes;
    var end := |bytes|;
    var found := true;
    assert bytes[start..end] == bytes[start..];
    while found
      invariant start <= end <= |bytes|
      invariant StripBlanks(ifsChars, bytes[start..]) == StripBlanks(ifsChars, bytes[start..end])
      invariant !found ==> StripBlanks(ifsChars, bytes[start..]) == bytes[start..end]
      decreases found, end
    {
      found := EndsInBlank(bytes, ifsChars, start, end);
      StripUnfolds(ifsChars, bytes[start..end]);
      if found {
        assert bytes[start..end][..end - start - 1] == bytes[start..end - 1];
        end := end - 1;
      }
    }
    return Values(bytes[start..end]);
  }

  lemma FieldLengthUnfolds(ifs: Ifs, bytes: seq<Byte>)
    requires bytes != []
    ensures Separator(ifs, bytes) == Find(ifs, UnquotedTail(bytes))
    ensures FieldLength(ifs, bytes) == if Separator(ifs, bytes).Some? then 0 else 1 + FieldLength(ifs, bytes[1..])
  {
  }

  lemma QuotedIsNoSeparator(ifs: Ifs, bytes: seq<Byte>)
    requires bytes != [] && bytes[0].quoted
    ensures Separator(ifs, bytes) == None
  {
    EmptyTextHasNoSeparator(ifs);
  }

  /** The separator at `index`, if that byte is unquoted and starts one (lines 324-328). */
  method SeparatorAt(bytes: seq<Byte>, ifsChars: Ifs, index: nat) returns (found: Option<IfsChar>)
    requires index < |bytes|
    ensures found == Separator(ifsChars, bytes[index..])
  {
    if bytes[index].quoted {
      QuotedIsNoSeparator(ifsChars, bytes[index..]);
      return None;
    }
    var tail := UnquotedTailAt(bytes, index);
    found := FindReadIfsAt(ifsChars, tail);
  }

  lemma OneMore(bytes: seq<Byte>, from: nat, index: nat)
    requires from <= index < |bytes|
    ensures Values(bytes[from..index + 1]) == Values(bytes[from..index]) + [bytes[index].value]
    ensures bytes[index..] != [] && bytes[index..][1..] == bytes[index + 1..]
  {
  }

  /** The bytes up to the next separator or the end. */
  method ScanField(bytes: seq<Byte>, ifsChars: Ifs, from: nat) returns (current: string, index: nat, found: Option<IfsChar>)
    requires from < |bytes|
    ensures from <= index <= |bytes|
    ensures index == from + FieldLength(ifsChars, bytes[from..]) && current == Values(bytes[from..index])
    ensures found.Some? <==> index < |bytes|
    ensures found.Some? ==> found == Separator(ifsChars, bytes[index..])
  {
    index, current, found := from, "", None;
    assert Values(bytes[from..from]) == "";
    assert FieldLength(ifsChars, bytes[|bytes|..]) == 0;
    hide FieldLength, SkipBlanks, Separator, UnquotedTail, Find, Decomposed, Values;
    while index < |bytes|
      invariant from <= index <= |bytes|
      invariant found == None && current == Values(bytes[from..index])
      invariant FieldLength(ifsChars, bytes[from..]) == index - from + FieldLength(ifsChars, bytes[index..])
      decreases |bytes| - index
    {
      FieldLengthUnfolds(ifsChars, bytes[index..]);
      found := SeparatorAt(bytes, ifsChars, index);
      if found.Some? {
        return;
      }
      OneMore(bytes, from, index);
      current := current + [bytes[index].value];
      index := index + 1;
    }
    assert bytes[index..] == bytes[|bytes|..];
  }

  /** The first field of the bytes, and what is left after its separator. */
  predicate Took(ifs: Ifs, bytes: seq<Byte>, field: string, rest: seq<Byte>) {
    var k := FieldLength(ifs, bytes);
    FieldEndsAtSeparator(ifs, bytes);
    && field == Values(bytes[..k])
    && rest == if k == |bytes| then [] else AfterSeparator(false, ifs, bytes[k..])
  }

  /** One field and the separator after it (lines 318-342). The source asserts that a
      white-space separator never ends an empty field; the assertion cannot fail. */
  method TakeField(bytes: seq<Byte>, ifsChars: Ifs, from: nat) returns (current: string, index: nat)
    requires from < |bytes|
    requires SkipBlanks(ifsChars, bytes[from..]) == bytes[from..]
    ensures from < index <= |bytes|
    ensures Took(ifsChars, bytes[from..], current, bytes[index..])
  {
    hide FieldLength, SkipBlanks, Separator, UnquotedTail, Find, Decomposed, DecomposedChar, Took, Values;
    SkippedIsClean(ifsChars, bytes[from..]);
    var found;
    current, index, found := ScanField(bytes, ifsChars, from);
    ScannedIsTook(bytes, ifsChars, from, index);
    if found.Some? {
      assert found.value.blank ==> index > from;
      assert found.value.blank ==> current != "";
      index := SkipReadIfsWs(bytes, ifsChars, index + |found.value.text|);
    }
  }

  lemma ScannedIsTook(bytes: seq<Byte>, ifs: Ifs, from: nat, index: nat)
    requires from < |bytes| && index == from + FieldLength(ifs, bytes[from..])
    ensures index <= |bytes|
    ensures index == |bytes| ==> Took(ifs, bytes[from..], Values(bytes[from..index]), bytes[index..])
    ensures index == from ==> bytes[from..] == bytes[index..]
    ensures index < |bytes| ==>
      (var m := Separator(ifs, bytes[index..]);
       m.Some? && Took(ifs, bytes[from..], Values(bytes[from..index]), SkipBlanks(ifs, bytes[index + |m.value.text|..])))
  {
    FieldEndsAtSeparator(ifs, bytes[from..]);
    assert bytes[from..][..index - from] == bytes[from..index];
    assert bytes[from..][index - from..] == bytes[index..];
    if index < |bytes| {
      var m := Separator(ifs, bytes[index..]).value;
      assert bytes[index..][|m.text|..] == bytes[index + |m.text|..];
    }
  }

  lemma FieldsUnfold(absorb: bool, ifs: Ifs, bytes: seq<Byte>, n: nat)
    requires n >= 1
    ensures n == 1 || bytes == [] ==> Fields(absorb, ifs, bytes, n) == [Trim(ifs, bytes)]
    ensures n > 1 && bytes != [] ==>
      (var k := FieldLength(ifs, bytes);
       FieldEndsAtSeparator(ifs, bytes);
       Fields(absorb, ifs, bytes, n) == [Values(bytes[..k])]
         + Fields(absorb, ifs, if k == |bytes| then [] else AfterSeparator(absorb, ifs, bytes[k..]), n - 1))
  {
  }

  lemma RestIsClean(ifs: Ifs, bytes: seq<Byte>)
    requires Separator(ifs, bytes).Some?
    ensures SkipBlanks(ifs, AfterSeparator(false, ifs, bytes)) == AfterSeparator(false, ifs, bytes)
  {
    SkipTwice(ifs, bytes[|Separator(ifs, bytes).value.text|..]);
  }

  lemma {:induction false} EmptyTextHasNoSeparator(ifs: Ifs)
    ensures Find(ifs, "") == None
    decreases |ifs|
  {
    if ifs != [] {
      assert DecomposedChar(ifs[0]);
      EmptyTextHasNoSeparator(ifs[1..]);
    }
  }

  lemma SkipTwice(ifs: Ifs, bytes: seq<Byte>)
    ensures SkipBlanks(ifs, SkipBlanks(ifs, bytes)) == SkipBlanks(ifs, bytes)
  {
    SkippedIsClean(ifs, bytes);
  }

  /** The values so far, completed by the fields of the bytes left. */
  predicate Pending(ifs: Ifs, want: seq<string>, values: seq<string>, rest: seq<Byte>, vars: nat) {
    && |values| < vars
    && want == values + Fields(false, ifs, rest, vars - |values|)
    && SkipBlanks(ifs, rest) == rest
  }

  lemma FieldTaken(ifs: Ifs, want: seq<string>, values: seq<string>, bytes: seq<Byte>, vars: nat, field: string, rest: seq<Byte>)
    requires Pending(ifs, want, values, bytes, vars) && |values| + 1 < vars
    requires bytes != [] && Took(ifs, bytes, field, rest)
    ensures Pending(ifs, want, values + [field], rest, vars)
  {
    hide Fields, FieldLength, AfterSeparator, Values, Separator, SkipBlanks, Find, UnquotedTail, Decomposed, DecomposedChar;
    FieldEndsAtSeparator(ifs, bytes);
    if FieldLength(ifs, bytes) < |bytes| {
      RestIsClean(ifs, bytes[FieldLength(ifs, bytes)..]);
    }
    FieldsUnfold(false, ifs, bytes, vars - |values|);
    Regroup(values, field, Fields(false, ifs, rest, vars - |values| - 1));
  }

  lemma Regroup(values: seq<string>, field: string, tail: seq<string>)
    ensures values + ([field] + tail) == values + [field] + tail
  {
  }

  lemma LastTaken(ifs: Ifs, want: seq<string>, values: seq<string>, rest: seq<Byte>, vars: nat)
    requires Pending(ifs, want, values, rest, vars)
    requires rest == [] || |values| + 1 == vars
    ensures want == values + [Trim(ifs, rest)]
  {
    FieldsUnfold(false, ifs, rest, vars - |values|);
  }

  /** Lines 314-347: several variables. */
  method SplitFields(bytes: seq<Byte>, ifs: Ifs, vars: nat) returns (values: seq<string>)
    requires vars > 1
    ensures values == Padded(Fields(false, ifs, SkipBlanks(ifs, bytes), vars), vars)
  {
    hide Fields, SkipBlanks, Trim, Decomposed, Padded, Took, Pending;
    values := [];
    assert bytes[0..] == bytes;
    var index := SkipReadIfsWs(bytes, ifs, 0);
    ghost var want := Fields(false, ifs, bytes[index..], vars);
    PendingAtFirst(ifs, bytes, vars);
    while index < |bytes| && |values| + 1 < vars
      invariant index <= |bytes| && |values| < vars
      invariant Pending(ifs, want, values, bytes[index..], vars)
      decreases |bytes| - index
    {
      var current;
      ghost var from := index;
      PendingIsClean(ifs, want, values, bytes[from..], vars);
      current, index := TakeField(bytes, ifs, index);
      FieldTaken(ifs, want, values, bytes[from..], vars, current, bytes[index..]);
      values := values + [current];
    }
    LastTaken(ifs, want, values, bytes[index..], vars);
    var last := TrimReadIfsWs(bytes[index..], ifs);
    values := values + [last];
    return Padded(values, vars);
  }

  lemma PendingAtFirst(ifs: Ifs, bytes: seq<Byte>, vars: nat)
    requires vars >= 1
    ensures (var rest := SkipBlanks(ifs, bytes); Pending(ifs, Fields(false, ifs, rest, vars), [], rest, vars))
  {
    SkipTwice(ifs, bytes);
  }

  lemma PendingIsClean(ifs: Ifs, want: seq<string>, values: seq<string>, rest: seq<Byte>, vars: nat)
    requires Pending(ifs, want, values, rest, vars)
    ensures SkipBlanks(ifs, rest) == rest
  {
  }

  method SplitReadAssignments(pieces: seq<Piece>, vars: nat, ifsValue: Option<Ifs>) returns (values: seq<string>)
    ensures values == Split(false, if ifsValue.Some? then ifsValue.value else DEFAULT_IFS, Flatten(pieces), vars)
  {
    if vars == 0 {
      return [];
    }
    var ifs: Ifs := if ifsValue.Some? then ifsValue.value else DEFAULT_IFS;
    var bytes := Flatten(pieces);
    if ifs == [] {
      return Padded([Values(bytes)], vars);
    }
    if vars == 1 {
      SkipTwice(ifs, bytes);
      FieldsUnfold(false, ifs, SkipBlanks(ifs, bytes), 1);
      hide Fields, SkipBlanks, StripBlanks;
      var value := TrimReadIfsWs(bytes, ifs);
      return [value];
    }
    values := SplitFields(bytes, ifs, vars);
  }

  /** The builtin's input and splitting together: with any transfer sizes, buffered or not,
      the values are the reference split of the reference line, and the file is left just
      after that line. */
  method ReadValues(file: OpenFile, raw: bool, delimiter: char, vars: nat, ifsValue: Option<Ifs>)
    returns (r: Option<(seq<string>, bool)>)
    modifies file
    ensures (var want := LineOf(raw, delimiter, false, file.From(old(file.offset)));
             match r
             case Some((values, hit)) =>
               && values == Split(false, if ifsValue.Some? then ifsValue.value else DEFAULT_IFS, want.bytes, vars)
               && hit == want.hit
               && file.offset == old(file.offset) + want.used
             case None =>
               && Fault in old(file.answers)
               && old(file.offset) <= file.offset <= old(file.offset) + want.used)
  {
    var got := ReadLogicalLine(file, raw, delimiter);
    if got.None? {
      return None;
    }
    var values := SplitReadAssignments(got.value.pieces, vars, ifsValue);
    return Some((values, got.value.hit));
  }

  // ---------------------------------------------------------------- nothing but separators is lost

  predicate Removable(ifs: Ifs, b: Byte) {
    !b.quoted && exists k :: 0 <= k < |ifs| && b.value in ifs[k].text
  }

  /** `out` is the bytes in order, less some unquoted bytes of IFS sequences. */
  predicate Thins(ifs: Ifs, bytes: seq<Byte>, out: string)
    decreases |bytes|
  {
    if bytes == [] then out == ""
    else
      || (out != "" && out[0] == bytes[0].value && Thins(ifs, bytes[1..], out[1..]))
      || (Removable(ifs, bytes[0]) && Thins(ifs, bytes[1..], out))
  }

  predicate AllRemovable(ifs: Ifs, bytes: seq<Byte>) {
    forall k :: 0 <= k < |bytes| ==> Removable(ifs, bytes[k])
  }

  lemma {:induction false} KeepingThins(ifs: Ifs, bytes: seq<Byte>)
    ensures Thins(ifs, bytes, Values(bytes))
  {
    if bytes != [] {
      KeepingThins(ifs, bytes[1..]);
      assert Values(bytes)[1..] == Values(bytes[1..]);
    }
  }

  lemma {:induction false} DroppingThins(ifs: Ifs, bytes: seq<Byte>)
    requires AllRemovable(ifs, bytes)
    ensures Thins(ifs, bytes, "")
  {
    if bytes != [] {
      DroppingThins(ifs, bytes[1..]);
    }
  }

  lemma {:induction false} ThinsJoins(ifs: Ifs, a: seq<Byte>, x: string, b: seq<Byte>, y: string)
    requires Thins(ifs, a, x) && Thins(ifs, b, y)
    ensures Thins(ifs, a + b, x + y)
    decreases |a|
  {
    if a == [] {
      assert a + b == b && x + y == y;
    } else {
      assert (a + b)[1..] == a[1..] + b;
      if x != "" && x[0] == a[0].value && Thins(ifs, a[1..], x[1..]) {
        ThinsJoins(ifs, a[1..], x[1..], b, y);
        assert (x + y)[1..] == x[1..] + y;
      } else {
        ThinsJoins(ifs, a[1..], x, b, y);
      }
    }
  }

  /** Bytes dropped in front. */
  lemma DropFront(ifs: Ifs, bytes: seq<Byte>, n: nat, out: string)
    requires n <= |bytes| && AllRemovable(ifs, bytes[..n]) && Thins(ifs, bytes[n..], out)
    ensures Thins(ifs, bytes, out)
  {
    DroppingThins(ifs, bytes[..n]);
    ThinsJoins(ifs, bytes[..n], "", bytes[n..], out);
    assert bytes[..n] + bytes[n..] == bytes && "" + out == out;
  }

  lemma SeparatorIsRemovable(ifs: Ifs, bytes: seq<Byte>)
    requires Separator(ifs, bytes).Some?
    ensures AllRemovable(ifs, bytes[..|Separator(ifs, bytes).value.text|])
  {
    SeparatorIsListed(ifs, bytes);
  }

  lemma {:induction false} SkipThins(ifs: Ifs, bytes: seq<Byte>, out: string)
    requires Thins(ifs, SkipBlanks(ifs, bytes), out)
    ensures Thins(ifs, bytes, out)
    decreases |bytes|
  {
    var m := Separator(ifs, bytes);
    if m.Some? && m.value.blank {
      SkipThins(ifs, bytes[1..], out);
      SeparatorIsListed(ifs, bytes);
      SeparatorIsRemovable(ifs, bytes);
      DropFront(ifs, bytes, 1, out);
    }
  }

  lemma {:induction false} StripThins(ifs: Ifs, bytes: seq<Byte>)
    ensures Thins(ifs, bytes, Values(StripBlanks(ifs, bytes)))
  {
    if bytes != [] && IsBlankByte(ifs, bytes[|bytes| - 1]) {
      var n := |bytes| - 1;
      StripThins(ifs, bytes[..n]);
      DroppingThins(ifs, bytes[n..]);
      ThinsJoins(ifs, bytes[..n], Values(StripBlanks(ifs, bytes[..n])), bytes[n..], "");
      assert bytes[..n] + bytes[n..] == bytes;
      assert Values(StripBlanks(ifs, bytes)) + "" == Values(StripBlanks(ifs, bytes));
    } else {
      KeepingThins(ifs, bytes);
    }
  }

  lemma TrimThins(ifs: Ifs, bytes: seq<Byte>)
    ensures Thins(ifs, bytes, Trim(ifs, bytes))
  {
    StripThins(ifs, SkipBlanks(ifs, bytes));
    SkipThins(ifs, bytes, Trim(ifs, bytes));
  }

  lemma AfterSeparatorThins(absorb: bool, ifs: Ifs, bytes: seq<Byte>, out: string)
    requires Separator(ifs, bytes).Some? && Thins(ifs, AfterSeparator(absorb, ifs, bytes), out)
    ensures Thins(ifs, bytes, out)
  {
    var m := Separator(ifs, bytes).value;
    var rest := SkipBlanks(ifs, bytes[|m.text|..]);
    var m' := Separator(ifs, rest);
    if absorb && m.blank && m'.Some? {
      SkipThins(ifs, rest[|m'.value.text|..], out);
      SeparatorIsRemovable(ifs, rest);
      DropFront(ifs, rest, |m'.value.text|, out);
    }
    SkipThins(ifs, bytes[|m.text|..], out);
    SeparatorIsRemovable(ifs, bytes);
    DropFront(ifs, bytes, |m.text|, out);
  }

  lemma {:induction false} FieldsThin(absorb: bool, ifs: Ifs, bytes: seq<Byte>, n: nat)
    requires n >= 1
    ensures Thins(ifs, bytes, Join(Fields(absorb, ifs, bytes, n)))
    decreases n
  {
    hide Fields, AfterSeparator, Thins, FieldLength, Separator, SkipBlanks, Find, UnquotedTail, Decomposed, DecomposedChar, Trim, Values;
    FieldsUnfold(absorb, ifs, bytes, n);
    var all := Fields(absorb, ifs, bytes, n);
    if n == 1 || bytes == [] {
      TrimThins(ifs, bytes);
      JoinOne(Trim(ifs, bytes));
    } else {
      var k := FieldLength(ifs, bytes);
      FieldEndsAtSeparator(ifs, bytes);
      var rest := if k == |bytes| then [] else AfterSeparator(absorb, ifs, bytes[k..]);
      FieldsThin(absorb, ifs, rest, n - 1);
      var out := Join(Fields(absorb, ifs, rest, n - 1));
      if k < |bytes| {
        AfterSeparatorThins(absorb, ifs, bytes[k..], out);
      } else {
        assert bytes[k..] == [];
      }
      KeepingThins(ifs, bytes[..k]);
      ThinsJoins(ifs, bytes[..k], Values(bytes[..k]), bytes[k..], out);
      assert bytes[..k] + bytes[k..] == bytes;
      assert all[1..] == Fields(absorb, ifs, rest, n - 1);
    }
  }

  lemma JoinOne(v: string)
    ensures Join([v]) == v
  {
    assert [v][1..] == [];
  }

  lemma {:induction false} PaddingJoins(values: seq<string>, n: nat)
    requires |values| <= n
    ensures Join(Padded(values, n)) == Join(values)
    decreases n
  {
    if values != [] {
      PaddingJoins(values[1..], n - 1);
      assert Padded(values, n)[1..] == Padded(values[1..], n - 1);
    } else if n > 0 {
      PaddingJoins([], n - 1);
      assert Padded([], n)[1..] == Padded([], n - 1);
    }
  }

  /** One value per variable, and put together the values are the bytes in order, less only
      unquoted bytes of IFS: every escaped byte and every other byte survives. */
  lemma SplitLosesOnlySeparators(absorb: bool, ifs: Ifs, bytes: seq<Byte>, n: nat)
    requires n >= 1
    ensures |Split(absorb, ifs, bytes, n)| == n
    ensures Thins(ifs, bytes, Join(Split(absorb, ifs, bytes, n)))
  {
    if ifs == [] {
      KeepingThins(ifs, bytes);
      PaddingJoins([Values(bytes)], n);
      JoinOne(Values(bytes));
    } else {
      var start := SkipBlanks(ifs, bytes);
      FieldsThin(absorb, ifs, start, n);
      SkipThins(ifs, bytes, Join(Fields(absorb, ifs, start, n)));
      PaddingJoins(Fields(absorb, ifs, start, n), n);
    }
  }

  // ---------------------------------------------------------------- against section 2.6.5 of XCU

  /** Somewhere a white-space separator is followed by another kind of separator. */
  predicate Adjacent(ifs: Ifs, bytes: seq<Byte>)
    decreases |bytes|
  {
    FieldEndsAtSeparator(ifs, bytes);
    var k := FieldLength(ifs, bytes);
    k < |bytes|
    && (var rest := AfterSeparator(false, ifs, bytes[k..]);
        || (Separator(ifs, bytes[k..]).value.blank && Separator(ifs, rest).Some?)
        || Adjacent(ifs, rest))
  }

  lemma {:induction false} WithoutAdjacentSame(ifs: Ifs, bytes: seq<Byte>, n: nat)
    requires n >= 1 && !Adjacent(ifs, bytes)
    ensures Fields(false, ifs, bytes, n) == Fields(true, ifs, bytes, n)
    decreases n
  {
    FieldsUnfold(false, ifs, bytes, n);
    FieldsUnfold(true, ifs, bytes, n);
    var k := FieldLength(ifs, bytes);
    FieldEndsAtSeparator(ifs, bytes);
    hide Fields, FieldLength, Separator, Trim, Values, Find, UnquotedTail, SkipBlanks;
    if n > 1 && bytes != [] {
      if k < |bytes| {
        WithoutAdjacentSame(ifs, AfterSeparator(false, ifs, bytes[k..]), n - 1);
      } else {
        NoBytesSame(ifs, n - 1);
      }
    }
  }

  lemma NoBytesSame(ifs: Ifs, n: nat)
    requires n >= 1
    ensures Fields(false, ifs, [], n) == Fields(true, ifs, [], n)
  {
  }

  lemma {:induction false} StripKeepsFirst(ifs: Ifs, bytes: seq<Byte>)
    requires bytes != [] && !IsBlankByte(ifs, bytes[0])
    ensures StripBlanks(ifs, bytes) != []
  {
    if IsBlankByte(ifs, bytes[|bytes| - 1]) {
      StripKeepsFirst(ifs, bytes[..|bytes| - 1]);
    }
  }

  lemma {:induction false} StripOfSuffix(ifs: Ifs, bytes: seq<Byte>, j: nat)
    requires 1 <= j <= |bytes| && !IsBlankByte(ifs, bytes[0])
    ensures |StripBlanks(ifs, bytes[j..])| < |StripBlanks(ifs, bytes)|
    decreases |bytes|
  {
    var n := |bytes| - 1;
    if j == |bytes| {
      StripKeepsFirst(ifs, bytes);
    } else if IsBlankByte(ifs, bytes[n]) {
      StripOfSuffix(ifs, bytes[..n], j);
      assert bytes[j..][..n - j] == bytes[..n][j..];
      assert bytes[j..][n - j] == bytes[n];
    }
  }

  lemma {:induction false} SkipIsSuffix(ifs: Ifs, bytes: seq<Byte>) returns (j: nat)
    ensures j <= |bytes| && SkipBlanks(ifs, bytes) == bytes[j..]
    decreases |bytes|
  {
    var m := Separator(ifs, bytes);
    j := 0;
    if m.Some? && m.value.blank {
      j := SkipIsSuffix(ifs, bytes[1..]);
      assert bytes[1..][j..] == bytes[j + 1..];
      j := j + 1;
    }
  }

  lemma TrimLength(ifs: Ifs, bytes: seq<Byte>)
    requires SkipBlanks(ifs, bytes) == bytes
    ensures |Trim(ifs, bytes)| == |StripBlanks(ifs, bytes)|
  {
  }

  lemma NothingToSkip(ifs: Ifs, bytes: seq<Byte>)
    requires Separator(ifs, bytes).Some? && !Separator(ifs, bytes).value.blank
    ensures SkipBlanks(ifs, bytes) == bytes
  {
  }

  lemma SeparatorIsNotBlank(ifs: Ifs, bytes: seq<Byte>)
    requires Separator(ifs, bytes).Some? && !Separator(ifs, bytes).value.blank
    ensures bytes != [] && !IsBlankByte(ifs, bytes[0])
  {
    SeparatorIsListed(ifs, bytes);
    OnlyBlanksAreBlank(ifs);
  }

  lemma OnlyBlanksAreBlank(ifs: Ifs)
    ensures forall c: char :: IfsChar([c], true) in ifs ==> IsBlank(c)
  {
    forall c: char | IfsChar([c], true) in ifs ensures IsBlank(c) {
      var k :| 0 <= k < |ifs| && ifs[k] == IfsChar([c], true);
      assert DecomposedChar(ifs[k]);
    }
  }

  /** Dropping a separator that is not white space shortens the last value. */
  lemma DroppingShortens(ifs: Ifs, rest: seq<Byte>)
    requires Separator(ifs, rest).Some? && !Separator(ifs, rest).value.blank
    ensures (var m := Separator(ifs, rest).value;
             |Trim(ifs, SkipBlanks(ifs, rest[|m.text|..]))| < |Trim(ifs, rest)|)
  {
    hide SkipBlanks, Separator, StripBlanks, Find, UnquotedTail, Trim, Decomposed;
    var m := Separator(ifs, rest).value;
    var tail := rest[|m.text|..];
    SkipTwice(ifs, tail);
    TrimLength(ifs, SkipBlanks(ifs, tail));
    NothingToSkip(ifs, rest);
    TrimLength(ifs, rest);
    var j := SkipIsSuffix(ifs, tail);
    assert tail[j..] == rest[|m.text| + j..];
    SeparatorIsNotBlank(ifs, rest);
    StripOfSuffix(ifs, rest, |m.text| + j);
  }

  lemma {:induction false} AdjacentDiffers(ifs: Ifs, bytes: seq<Byte>) returns (n: nat)
    requires Adjacent(ifs, bytes)
    ensures n > 1
    ensures |Fields(false, ifs, bytes, n)| == n == |Fields(true, ifs, bytes, n)|
    ensures Fields(false, ifs, bytes, n) != Fields(true, ifs, bytes, n)
    decreases |bytes|
  {
    var k := FieldLength(ifs, bytes);
    FieldEndsAtSeparator(ifs, bytes);
    var here := bytes[k..];
    var rest := AfterSeparator(false, ifs, here);
    var rest' := AfterSeparator(true, ifs, here);
    SkippedIsClean(ifs, here[|Separator(ifs, here).value.text|..]);
    if Separator(ifs, here).value.blank && Separator(ifs, rest).Some? {
      n := 2;
      DroppingShortens(ifs, rest);
    } else {
      assert rest == rest';
      n := AdjacentDiffers(ifs, rest);
      n := n + 1;
    }
    hide Fields, FieldLength, Separator, Trim, Values, Find, UnquotedTail, SkipBlanks, AfterSeparator;
    FieldsUnfold(false, ifs, bytes, n);
    FieldsUnfold(true, ifs, bytes, n);
    FieldsUnfold(false, ifs, rest, n - 1);
    FieldsUnfold(true, ifs, rest', n - 1);
    assert Fields(false, ifs, bytes, n)[1..] == Fields(false, ifs, rest, n - 1);
    assert Fields(true, ifs, bytes, n)[1..] == Fields(true, ifs, rest', n - 1);
  }

  lemma {:induction false} NoIfsNoSeparator(bytes: seq<Byte>)
    ensures FieldLength([], bytes) == |bytes|
  {
    if bytes != [] {
      NoIfsNoSeparator(bytes[1..]);
    }
  }

  lemma FullIsUnpadded(values: seq<string>, n: nat)
    requires |values| == n
    ensures Padded(values, n) == values
  {
  }

  /** Section 2.6.5 of XCU makes white space and an adjacent other separator one delimiter.
      The source does not: the two split the same way for every number of variables exactly
      when no white-space separator is followed by another kind. */
  lemma AgreesWithTheStandard(ifs: Ifs, bytes: seq<Byte>)
    ensures (forall n: nat :: Split(false, ifs, bytes, n) == Split(true, ifs, bytes, n))
       <==> !Adjacent(ifs, SkipBlanks(ifs, bytes))
  {
    var start := SkipBlanks(ifs, bytes);
    hide Fields, SkipBlanks, Padded, Find, UnquotedTail, Values;
    if ifs == [] {
      NoIfsNoSeparator(start);
    } else if Adjacent(ifs, start) {
      var n := AdjacentDiffers(ifs, start);
      FullIsUnpadded(Fields(false, ifs, start, n), n);
      FullIsUnpadded(Fields(true, ifs, start, n), n);
      assert Split(false, ifs, bytes, n) != Split(true, ifs, bytes, n);
    } else {
      forall n: nat ensures Split(false, ifs, bytes, n) == Split(true, ifs, bytes, n) {
        if n >= 1 {
          WithoutAdjacentSame(ifs, start, n);
        }
      }
    }
  }

  const BLANK_COLON: Ifs := [IfsChar(" ", true), IfsChar(":", false)]

  lemma {:induction false} TailOfPlainText(s: string)
    ensures UnquotedTail(Tag(s, false)) == s
  {
    if s != "" {
      TailOfPlainText(s[1..]);
      assert Tag(s, false)[1..] == Tag(s[1..], false);
    }
  }

  /** The separators of plain text under BLANK_COLON, one step of each scanner. */
  lemma PlainText(s: string)
    ensures (var bytes := Tag(s, false);
             && (s != "" ==> bytes[1..] == Tag(s[1..], false))
             && (s != "" && s[0] == ' ' ==>
                  Separator(BLANK_COLON, bytes) == Some(IfsChar(" ", true))
                  && SkipBlanks(BLANK_COLON, bytes) == SkipBlanks(BLANK_COLON, bytes[1..]))
             && (s != "" && s[0] == ':' ==>
                  Separator(BLANK_COLON, bytes) == Some(IfsChar(":", false)) && SkipBlanks(BLANK_COLON, bytes) == bytes)
             && (s == "" || (s[0] != ' ' && s[0] != ':') ==>
                  Separator(BLANK_COLON, bytes) == None && SkipBlanks(BLANK_COLON, bytes) == bytes)
             && FieldLength(BLANK_COLON, bytes)
                == if s == "" || s[0] == ' ' || s[0] == ':' then 0 else 1 + FieldLength(BLANK_COLON, bytes[1..]))
  {
    TailOfPlainText(s);
    assert BLANK_COLON[1..] == [IfsChar(":", false)];
    assert " " <= s <==> s != "" && s[0] == ' ';
    assert ":" <= s <==> s != "" && s[0] == ':';
    assert Find(BLANK_COLON[1..][1..], s) == None;
    if s != "" {
      assert Tag(s, false)[1..] == Tag(s[1..], false);
    }
  }

  /** With IFS=' :' the line `a : b` yields an empty second value instead of `b`. */
  lemma BlankThenColonSplitsTwice()
    ensures Split(false, BLANK_COLON, Tag("a : b", false), 3) == ["a", "", "b"]
    ensures Split(true, BLANK_COLON, Tag("a : b", false), 3) == ["a", "b", ""]
  {
    hide Fields, Find, Separator, SkipBlanks, FieldLength, UnquotedTail, Decomposed, AfterSeparator, Trim, Tag;
    var ifs, all := BLANK_COLON, Tag("a : b", false);
    var blank, colon, b, none := Tag(" : b", false), Tag(": b", false), Tag("b", false), Tag("", false);
    assert "a : b"[1..] == " : b" && " : b"[1..] == ": b" && ": b"[1..] == " b" && " b"[1..] == "b" && "b"[1..] == "";
    PlainText("a : b");
    PlainText(" : b");
    PlainText(": b");
    PlainText(" b");
    PlainText("b");
    PlainText("");
    TakeFirst(all, blank);
    TakeFirst(b, none);
    AfterBlank(blank, colon);
    AfterColon(colon, b);
    TrimPlain();
    FieldsUnfold(false, ifs, all, 3);
    FieldsUnfold(false, ifs, colon, 2);
    FieldsUnfold(false, ifs, b, 1);
    FieldsUnfold(true, ifs, all, 3);
    FieldsUnfold(true, ifs, b, 2);
    FieldsUnfold(true, ifs, [], 1);
    assert colon[0..] == colon && Values(colon[..0]) == "";
    FullIsUnpadded(["a", "", "b"], 3);
    FullIsUnpadded(["a", "b", ""], 3);
  }

  lemma TakeFirst(bytes: seq<Byte>, rest: seq<Byte>)
    requires bytes != [] && rest == bytes[1..]
    ensures Values(bytes[..1]) == [bytes[0].value]
  {
  }

  lemma AfterBlank(bytes: seq<Byte>, rest: seq<Byte>)
    requires Separator(BLANK_COLON, bytes) == Some(IfsChar(" ", true)) && rest == bytes[1..]
    requires Separator(BLANK_COLON, rest) == Some(IfsChar(":", false))
    ensures AfterSeparator(false, BLANK_COLON, bytes) == SkipBlanks(BLANK_COLON, rest)
    ensures SkipBlanks(BLANK_COLON, rest) == rest
    ensures AfterSeparator(true, BLANK_COLON, bytes) == SkipBlanks(BLANK_COLON, rest[1..])
  {
  }

  lemma AfterColon(bytes: seq<Byte>, rest: seq<Byte>)
    requires Separator(BLANK_COLON, bytes) == Some(IfsChar(":", false)) && SkipBlanks(BLANK_COLON, bytes[1..]) == rest
    ensures AfterSeparator(false, BLANK_COLON, bytes) == rest
  {
  }

  lemma TrimPlain()
    ensures Trim(BLANK_COLON, Tag("b", false)) == "b" && Trim(BLANK_COLON, []) == ""
  {
    PlainText("b");
    PlainText("");
    assert Tag("", false) == [];
  }

  // ---------------------------------------------------------------- round trips

  predicate AllQuoted(bytes: seq<Byte>) {
    forall k :: 0 <= k < |bytes| ==> bytes[k].quoted
  }

  lemma {:induction false} QuotedIsOneField(ifs: Ifs, bytes: seq<Byte>)
    requires AllQuoted(bytes)
    ensures FieldLength(ifs, bytes) == |bytes| && SkipBlanks(ifs, bytes) == bytes && StripBlanks(ifs, bytes) == bytes
  {
    EmptyTextHasNoSeparator(ifs);
    if bytes != [] {
      QuotedIsOneField(ifs, bytes[1..]);
    }
  }

  /** Quoted bytes are never separators: they all go to the first variable. */
  lemma QuotedIsNotSplit(absorb: bool, ifs: Ifs, bytes: seq<Byte>, n: nat)
    requires AllQuoted(bytes) && n >= 1
    ensures Split(absorb, ifs, bytes, n) == Padded([Values(bytes)], n)
  {
    QuotedIsOneField(ifs, bytes);
    QuotedIsOneField(ifs, []);
    FieldsUnfold(absorb, ifs, bytes, n);
    if n > 1 {
      FieldsUnfold(absorb, ifs, [], n - 1);
      assert bytes[..|bytes|] == bytes;
      assert Padded([Values(bytes), ""], n) == Padded([Values(bytes)], n);
    }
  }

  /** Text without a newline, written with a backslash before every byte, is read back whole
      by `read`, whatever IFS holds. */
  lemma EscapedTextReadsBack(ifs: Ifs, v: string, rest: string, n: nat)
    requires '\n' !in v && n >= 1
    ensures (var line := LineOf(false, '\n', false, Escape(v) + ['\n'] + rest);
             line.hit && Split(false, ifs, line.bytes, n) == Padded([v], n))
  {
    EscapedTextIsQuoted('\n', false, v, rest);
    QuotedIsNotSplit(false, ifs, Tag(v, true), n);
    assert Values(Tag(v, true)) == v;
  }

  /** `IFS= read -r v` stores the line as it stands in the file. */
  lemma RawLineWithoutIfsIsVerbatim(delimiter: char, s: string)
    ensures (var line := LineOf(true, delimiter, false, s);
             var v := Split(false, [], line.bytes, 1)[0];
             line.used <= |s| && s == v + Ending(line, delimiter) + s[line.used..] && delimiter !in v)
  {
    RawLineIsVerbatim(delimiter, false, s);
  }
}
