/** The input half of the read builtin (src/builtin/read.rs:123-261, 350-366): a byte source
    that may buffer and rewind, and the assembly of one logical line out of pieces. */
module ReadLine {
  import opened Wrappers

  // ---------------------------------------------------------------- pieces

  datatype Byte = Byte(value: char, quoted: bool)

  datatype Piece = Piece(text: string, quoted: bool)

  function Tag(text: string, quoted: bool): (r: seq<Byte>)
    ensures |r| == |text|
    ensures forall k :: 0 <= k < |text| ==> r[k] == Byte(text[k], quoted)
  {
    seq(|text|, k requires 0 <= k < |text| => Byte(text[k], quoted))
  }

  /** `flatten_read_bytes`. */
  function Flatten(pieces: seq<Piece>): seq<Byte> {
    if pieces == [] then [] else Tag(pieces[0].text, pieces[0].quoted) + Flatten(pieces[1..])
  }

  /** No empty piece, and neighbours differ in quoting. */
  predicate Canonical(pieces: seq<Piece>) {
    && (forall k :: 0 <= k < |pieces| ==> pieces[k].text != "")
    && (forall k :: 0 < k < |pieces| ==> pieces[k - 1].quoted != pieces[k].quoted)
  }

  lemma {:induction false} FlattenSnoc(pieces: seq<Piece>, p: Piece)
    ensures Flatten(pieces + [p]) == Flatten(pieces) + Tag(p.text, p.quoted)
  {
    if pieces == [] {
      assert [p][1..] == [];
    } else {
      FlattenSnoc(pieces[1..], p);
      assert (pieces + [p])[1..] == pieces[1..] + [p];
    }
  }

  lemma TagJoins(a: string, b: string, quoted: bool)
    ensures Tag(a + b, quoted) == Tag(a, quoted) + Tag(b, quoted)
  {
  }

  /** How the first piece shows in the bytes: it is the longest run with one quoting. */
  lemma {:induction false} FirstRun(a: seq<Piece>)
    requires Canonical(a) && a != []
    ensures |Flatten(a)| >= |a[0].text| >= 1
    ensures forall k :: 0 <= k < |a[0].text| ==> Flatten(a)[k] == Byte(a[0].text[k], a[0].quoted)
    ensures |Flatten(a)| > |a[0].text| ==> Flatten(a)[|a[0].text|].quoted != a[0].quoted
    ensures Flatten(a)[|a[0].text|..] == Flatten(a[1..])
  {
    var head := Tag(a[0].text, a[0].quoted);
    assert Flatten(a) == head + Flatten(a[1..]);
    assert Flatten(a)[|head|..] == Flatten(a[1..]);
    if |a| > 1 {
      assert Flatten(a[1..])[0] == Byte(a[1].text[0], a[1].quoted);
      assert Flatten(a)[|a[0].text|] == Flatten(a[1..])[0];
    } else {
      assert a[1..] == [];
    }
  }

  predicate RunOf(f: seq<Byte>, n: nat) {
    && 1 <= n <= |f|
    && (forall k :: 0 <= k < n ==> f[k].quoted == f[0].quoted)
    && (n < |f| ==> f[n].quoted != f[0].quoted)
  }

  lemma LongestRun(f: seq<Byte>, n: nat, m: nat)
    requires RunOf(f, n) && RunOf(f, m)
    ensures n == m
  {
  }

  /** The pieces are determined by their bytes: two canonical lists that flatten to the same
      bytes are the same list. */
  lemma {:induction false} PiecesAreUnique(a: seq<Piece>, b: seq<Piece>)
    requires Canonical(a) && Canonical(b) && Flatten(a) == Flatten(b)
    ensures a == b
  {
    if a != [] {
      FirstRun(a);
    }
    if b != [] {
      FirstRun(b);
    }
    if a != [] && b != [] {
      var n, m := |a[0].text|, |b[0].text|;
      LongestRun(Flatten(a), n, m);
      assert a[0].text == b[0].text by {
        forall k | 0 <= k < n ensures a[0].text[k] == Flatten(a)[k].value {
        }
      }
      assert a[0] == b[0] by {
        assert Flatten(a)[0].quoted == a[0].quoted && Flatten(b)[0].quoted == b[0].quoted;
      }
      PiecesAreUnique(a[1..], b[1..]);
      assert a == [a[0]] + a[1..] && b == [b[0]] + b[1..];
    }
  }

  // ---------------------------------------------------------------- the reference

  /** One logical line: its bytes, whether the delimiter ended it, and how much input it used. */
  datatype Line = Line(bytes: seq<Byte>, hit: bool, used: nat)

  function Prepend(bytes: seq<Byte>, used: nat, rest: Line): Line {
    Line(bytes + rest.bytes, rest.hit, used + rest.used)
  }

  /** Backslash removes a following newline or delimiter and quotes any other byte. A lone
      backslash at the end of input is kept, quoted like the byte before it. */
  function LineOf(raw: bool, delimiter: char, afterQuoted: bool, s: string): Line
    decreases |s|
  {
    if s == "" then Line([], false, 0)
    else if !raw && s[0] == '\\' then
      if |s| == 1 then Line([Byte('\\', afterQuoted)], false, 1)
      else if s[1] == '\n' || s[1] == delimiter then Prepend([], 2, LineOf(raw, delimiter, false, s[2..]))
      else Prepend([Byte(s[1], true)], 2, LineOf(raw, delimiter, true, s[2..]))
    else if s[0] == delimiter then Line([], true, 1)
    else Prepend([Byte(s[0], false)], 1, LineOf(raw, delimiter, false, s[1..]))
  }

  /** The reference line behind what is already taken of it. */
  function Whole(raw: bool, delimiter: char, taken: seq<Byte>, used: nat, q: bool, left: string): Line {
    Prepend(taken, used, LineOf(raw, delimiter, q, left))
  }

  lemma WholeAtEnd(raw: bool, delimiter: char, taken: seq<Byte>, used: nat, q: bool)
    ensures Whole(raw, delimiter, taken, used, q, "") == Line(taken, false, used)
  {
  }

  lemma WholeLoneBackslash(delimiter: char, taken: seq<Byte>, used: nat, q: bool)
    ensures Whole(false, delimiter, taken, used, q, "\\") == Line(taken + [Byte('\\', q)], false, used + 1)
  {
  }

  lemma WholeEscape(delimiter: char, taken: seq<Byte>, used: nat, q: bool, s: string)
    requires |s| >= 2 && s[0] == '\\'
    ensures Whole(false, delimiter, taken, used, q, s)
         == if s[1] == '\n' || s[1] == delimiter then Whole(false, delimiter, taken, used + 2, false, s[2..])
            else Whole(false, delimiter, taken + [Byte(s[1], true)], used + 2, true, s[2..])
  {
    assert taken + [] == taken;
    assert forall rest: seq<Byte> :: taken + ([Byte(s[1], true)] + rest) == taken + [Byte(s[1], true)] + rest;
  }

  lemma WholePlain(raw: bool, delimiter: char, taken: seq<Byte>, used: nat, q: bool, s: string)
    requires s != "" && (raw || s[0] != '\\')
    ensures Whole(raw, delimiter, taken, used, q, s)
         == if s[0] == delimiter then Line(taken, true, used + 1)
            else Whole(raw, delimiter, taken + [Byte(s[0], false)], used + 1, false, s[1..])
  {
    assert taken + [] == taken;
    assert forall rest: seq<Byte> :: taken + ([Byte(s[0], false)] + rest) == taken + [Byte(s[0], false)] + rest;
  }

  lemma UsesAtLeast(raw: bool, delimiter: char, taken: seq<Byte>, used: nat, q: bool, s: string)
    ensures Whole(raw, delimiter, taken, used, q, s).used >= used + (if s == "" then 0 else 1)
  {
  }

  lemma TagOne(c: char, quoted: bool)
    ensures Tag([c], quoted) == [Byte(c, quoted)] && Tag("", quoted) == []
  {
  }

  // ---------------------------------------------------------------- the input file

  /** How the kernel answers one read: a transfer of some size, or an error. */
  datatype Answer = Transfer(extra: nat) | Fault

  const READ_CHUNK: nat := 1024

  function Least(a: nat, b: nat): nat {
    if a < b then a else b
  }

  class OpenFile {
    const data: string
    const seekable: bool
    var offset: nat
    var answers: seq<Answer>

    /** What a reader at `position` has still to see. */
    function From(position: nat): string {
      if position <= |data| then data[position..] else ""
    }

    /** A read transfers between one byte and all it can, unless at the end of the data. */
    method Read(count: nat) returns (r: Option<string>)
      requires count >= 1
      modifies this
      ensures r.None? ==> offset == old(offset) && Fault in old(answers)
      ensures r.Some? ==>
        && |r.value| <= count
        && r.value <= From(old(offset))
        && offset == old(offset) + |r.value|
        && (r.value == "" <==> From(old(offset)) == "")
      ensures forall a :: a in answers ==> a in old(answers)
    {
      var rest := From(offset);
      var answer := Transfer(count);
      if answers != [] {
        answer, answers := answers[0], answers[1..];
      }
      if answer.Fault? {
        return None;
      }
      var most := Least(count, |rest|);
      var n := if most == 0 then 0 else 1 + Least(answer.extra, most - 1);
      offset := offset + n;
      return Some(rest[..n]);
    }

    method Rewind(n: nat)
      requires n <= offset
      modifies this`offset
      ensures offset == old(offset) - n
    {
      offset := offset - n;
    }
  }

  /** Buffered on a seekable file, one byte a call otherwise. */
  class ReadCursor {
    const file: OpenFile
    const buffered: bool
    const buf: array<char>
    var start: nat
    var end: nat

    ghost predicate Valid()
      reads this, buf, file
    {
      && buf.Length == READ_CHUNK
      && start <= end <= READ_CHUNK
      && (!buffered ==> start == end)
      && end - start <= file.offset
      && (start < end ==> file.offset <= |file.data| && buf[start..end] == file.data[file.offset - (end - start)..file.offset])
    }

    /** The offset a byte-at-a-time reader would have. */
    function Position(): nat
      requires Valid()
      reads this, buf, file
    {
      file.offset - (end - start)
    }

    function Remaining(): string
      requires Valid()
      reads this, buf, file
    {
      file.From(Position())
    }

    constructor ForFd(f: OpenFile)
      ensures Valid() && fresh(buf) && file == f
      ensures Position() == f.offset
      ensures buffered == f.seekable
    {
      file := f;
      buffered := f.seekable;
      buf := new char[READ_CHUNK];
      start, end := 0, 0;
    }

    /** A byte-at-a-time reader at `position` with `rest` to come. */
    ghost predicate At(position: nat, rest: string)
      reads this, buf, file
    {
      Valid() && Position() == position && Remaining() == rest
    }

    method NextByte(ghost position: nat, ghost rest: string) returns (r: Option<Option<char>>)
      requires At(position, rest)
      modifies this, buf, file
      ensures r.None? ==> At(position, rest) && Fault in old(file.answers)
      ensures r == Some(None) ==> rest == "" && At(position, rest)
      ensures r.Some? && r.value.Some? ==> rest != "" && r.value.value == rest[0] && At(position + 1, rest[1..])
      ensures forall a :: a in file.answers ==> a in old(file.answers)
    {
      if buffered {
        if start == end {
          var filled := Fill(position, rest);
          if filled.None? || !filled.value {
            return if filled.None? then None else Some(None);
          }
        }
        var b := buf[start];
        ghost var pending := buf[start..end];
        assert b == pending[0];
        start := start + 1;
        assert buf[start..end] == pending[1..];
        return Some(Some(b));
      } else {
        var n := file.Read(1);
        if n.None? {
          return None;
        }
        return Some(if n.value == "" then None else Some(n.value[0]));
      }
    }

    /** An empty buffer is filled by one read; `Some(false)` at the end of the data. */
    method Fill(ghost position: nat, ghost rest: string) returns (filled: Option<bool>)
      requires At(position, rest) && buffered && start == end
      modifies this, buf, file
      ensures At(position, rest)
      ensures filled.None? ==> Fault in old(file.answers)
      ensures filled == Some(false) ==> rest == ""
      ensures filled == Some(true) ==> start < end
      ensures forall a :: a in file.answers ==> a in old(file.answers)
    {
      var n := file.Read(READ_CHUNK);
      if n.None? {
        return None;
      }
      if n.value == "" {
        return Some(false);
      }
      forall k | 0 <= k < |n.value| {
        buf[k] := n.value[k];
      }
      start, end := 0, |n.value|;
      assert buf[..|n.value|] == n.value;
      assert rest == file.data[position..];
      return Some(true);
    }

    /** `Drop`: unread bytes are given back. */
    method Drop()
      requires Valid()
      modifies file`offset
      ensures file.offset == old(Position())
    {
      if buffered {
        var unused := end - start;
        if unused > 0 {
          file.Rewind(unused);
        }
      }
    }
  }

  // ---------------------------------------------------------------- one line

  method PushReadPiece(pieces: seq<Piece>, current: string, quoted: bool) returns (pieces': seq<Piece>)
    requires Canonical(pieces)
    ensures Canonical(pieces')
    ensures Flatten(pieces') == Flatten(pieces) + Tag(current, quoted)
  {
    hide Flatten, Tag;
    if current == "" {
      assert Flatten(pieces) + Tag(current, quoted) == Flatten(pieces);
      return pieces;
    }
    if pieces != [] && pieces[|pieces| - 1].quoted == quoted {
      var init, last := pieces[..|pieces| - 1], pieces[|pieces| - 1];
      assert pieces == init + [last];
      FlattenSnoc(init, last);
      TagJoins(last.text, current, quoted);
      FlattenSnoc(init, Piece(last.text + current, quoted));
      return init + [Piece(last.text + current, quoted)];
    }
    FlattenSnoc(pieces, Piece(current, quoted));
    return pieces + [Piece(current, quoted)];
  }

  datatype Read = Read(pieces: seq<Piece>, hit: bool)

  /** The pieces so far and the piece in progress. */
  datatype Draft = Draft(pieces: seq<Piece>, current: string, quoted: bool)

  predicate Sound(d: Draft) {
    Canonical(d.pieces) && (d.quoted ==> d.current != "")
  }

  function Taken(d: Draft): seq<Byte> {
    Flatten(d.pieces) + Tag(d.current, d.quoted)
  }

  /** The piece in progress is pushed and a new one begins. */
  method Pushed(d: Draft) returns (d': Draft)
    requires Sound(d)
    ensures Sound(d') && Taken(d') == Taken(d) && d'.current == "" && !d'.quoted
    ensures Taken(d') == Flatten(d'.pieces) && Canonical(d'.pieces)
  {
    var pieces := PushReadPiece(d.pieces, d.current, d.quoted);
    TagOne(' ', false);
    return Draft(pieces, "", false);
  }

  /** Lines 228-230: an escaped byte starts a quoted piece. */
  method Quoting(d: Draft, escaped: char) returns (d': Draft)
    requires Sound(d)
    ensures Sound(d') && Taken(d') == Taken(d) + [Byte(escaped, true)] && d'.quoted
  {
    var p := Pushed(d);
    TagOne(escaped, true);
    return Draft(p.pieces, [escaped], true);
  }

  method Appended(d: Draft, ch: char) returns (d': Draft)
    requires Sound(d)
    ensures Sound(d') && Taken(d') == Taken(d) + [Byte(ch, d.quoted)] && d'.quoted == d.quoted
  {
    TagJoins(d.current, [ch], d.quoted);
    TagOne(ch, d.quoted);
    d' := d.(current := d.current + [ch]);
    assert Taken(d') == Taken(d) + Tag([ch], d.quoted);
  }

  /** What an unfinished or finished read has established. */
  ghost predicate Matches(r: Option<Read>, used: nat, want: Line) {
    match r
    case Some(got) =>
      Canonical(got.pieces) && Flatten(got.pieces) == want.bytes && got.hit == want.hit && used == want.used
    case None => used <= want.used
  }

  /** Lines 213-231, after the backslash: either the read is over or the draft moves on. */
  method ReadEscape(cursor: ReadCursor, delimiter: char, d: Draft, ghost begin: nat, ghost before: nat, ghost s: string)
    returns (over: bool, r: Option<Read>, d': Draft, ghost used: nat, ghost left: string)
    requires s != "" && s[0] == '\\' && Sound(d)
    requires cursor.At(begin + before + 1, s[1..])
    modifies cursor, cursor.buf, cursor.file
    ensures cursor.At(begin + used, left)
    ensures (var want := Whole(false, delimiter, Taken(d), before, d.quoted, s);
             if over then Matches(r, used, want)
             else Sound(d') && |left| < |s| && Whole(false, delimiter, Taken(d'), used, d'.quoted, left) == want)
    ensures over && r.None? ==> Fault in old(cursor.file.answers)
    ensures forall a :: a in cursor.file.answers ==> a in old(cursor.file.answers)
  {
    UsesAtLeast(false, delimiter, Taken(d), before, d.quoted, s);
    hide LineOf, Flatten, Taken, Tag, Whole, Canonical, Sound, ReadCursor.At;
    used, left, d' := before + 1, s[1..], d;
    var next := cursor.NextByte(begin + used, left);
    if next.None? {
      return true, None, d, used, left;
    }
    if next.value.None? {
      assert s == "\\";
      WholeLoneBackslash(delimiter, Taken(d), before, d.quoted);
      d' := Appended(d, '\\');
      d' := Pushed(d');
      return true, Some(Read(d'.pieces, false)), d', used, left;
    }
    var escaped := next.value.value;
    WholeEscape(delimiter, Taken(d), before, d.quoted, s);
    assert s[1..][1..] == s[2..];
    used, left := used + 1, s[2..];
    if escaped == '\n' || escaped == delimiter {
      d' := Pushed(d);
    } else {
      d' := Quoting(d, escaped);
    }
    return false, None, d', used, left;
  }

  /** One turn of the loop (lines 209-241). */
  method ReadTurn(cursor: ReadCursor, raw: bool, delimiter: char, d: Draft, ghost begin: nat, ghost before: nat, ghost s: string)
    returns (over: bool, r: Option<Read>, d': Draft, ghost used: nat, ghost left: string)
    requires Sound(d)
    requires cursor.At(begin + before, s)
    modifies cursor, cursor.buf, cursor.file
    ensures cursor.At(begin + used, left)
    ensures (var want := Whole(raw, delimiter, Taken(d), before, d.quoted, s);
             if over then Matches(r, used, want)
             else Sound(d') && |left| < |s| && Whole(raw, delimiter, Taken(d'), used, d'.quoted, left) == want)
    ensures over && r.None? ==> Fault in old(cursor.file.answers)
    ensures forall a :: a in cursor.file.answers ==> a in old(cursor.file.answers)
  {
    UsesAtLeast(raw, delimiter, Taken(d), before, d.quoted, s);
    hide LineOf, Flatten, Taken, Tag, Whole, Canonical, Sound, ReadCursor.At;
    used, left, d' := before, s, d;
    var next := cursor.NextByte(begin + before, s);
    if next.None? {
      return true, None, d, used, left;
    }
    if next.value.None? {
      WholeAtEnd(raw, delimiter, Taken(d), before, d.quoted);
      d' := Pushed(d);
      return true, Some(Read(d'.pieces, false)), d', used, left;
    }
    var ch := next.value.value;
    if !raw && ch == '\\' {
      over, r, d', used, left := ReadEscape(cursor, delimiter, d, begin, before, s);
      return;
    }
    WholePlain(raw, delimiter, Taken(d), before, d.quoted, s);
    used, left := before + 1, s[1..];
    if ch == delimiter {
      d' := Pushed(d);
      return true, Some(Read(d'.pieces, true)), d', used, left;
    }
    if d.quoted {
      d' := Pushed(d);
    }
    d' := Appended(d', ch);
    return false, None, d', used, left;
  }

  method ReadFrom(cursor: ReadCursor, raw: bool, delimiter: char, ghost begin: nat, ghost input: string)
    returns (r: Option<Read>, ghost used: nat, ghost left: string)
    requires cursor.At(begin, input)
    modifies cursor, cursor.buf, cursor.file
    ensures cursor.At(begin + used, left)
    ensures Matches(r, used, LineOf(raw, delimiter, false, input))
    ensures r.None? ==> Fault in old(cursor.file.answers)
  {
    r, left, used := None, input, 0;
    var d := Draft([], "", false);
    TagOne(' ', false);
    assert Taken(d) == [] && Sound(d);
    ghost var want := LineOf(raw, delimiter, false, input);
    assert Whole(raw, delimiter, [], 0, false, input) == want;
    var over := false;
    while !over
      invariant cursor.At(begin + used, left)
      invariant if over then Matches(r, used, want) && (r.None? ==> Fault in old(cursor.file.answers))
                else Sound(d) && Whole(raw, delimiter, Taken(d), used, d.quoted, left) == want
      invariant forall a :: a in cursor.file.answers ==> a in old(cursor.file.answers)
      decreases !over, |left|
    {
      over, r, d, used, left := ReadTurn(cursor, raw, delimiter, d, begin, used, left);
    }
  }

  /** `read_logical_line`: whatever sizes the reads transfer, and whether or not the file can
      seek, the result is the reference line and the file is left just after it. */
  method ReadLogicalLine(file: OpenFile, raw: bool, delimiter: char) returns (r: Option<Read>)
    modifies file
    ensures (var want := LineOf(raw, delimiter, false, file.From(old(file.offset)));
             match r
             case Some(got) =>
               && Canonical(got.pieces)
               && Flatten(got.pieces) == want.bytes
               && got.hit == want.hit
               && file.offset == old(file.offset) + want.used
             case None =>
               && Fault in old(file.answers)
               && old(file.offset) <= file.offset <= old(file.offset) + want.used)
  {
    var cursor := new ReadCursor.ForFd(file);
    ghost var used, left;
    r, used, left := ReadFrom(cursor, raw, delimiter, file.offset, file.From(file.offset));
    cursor.Drop();
  }

  /** The contract leaves no choice: any two reads of the same input, buffered or not and with
      any transfer sizes, return the same pieces and leave the file at the same offset. */
  lemma ResultIsDetermined(a: Read, usedA: nat, b: Read, usedB: nat, want: Line)
    requires Matches(Some(a), usedA, want) && Matches(Some(b), usedB, want)
    ensures a == b && usedA == usedB
  {
    PiecesAreUnique(a.pieces, b.pieces);
  }

  // ---------------------------------------------------------------- what the line is for

  lemma {:induction false} UsesOnlyInput(raw: bool, delimiter: char, q: bool, s: string)
    ensures LineOf(raw, delimiter, q, s).used <= |s|
    decreases |s|
  {
    if !raw && |s| >= 2 && s[0] == '\\' {
      UsesOnlyInput(raw, delimiter, s[1] != '\n' && s[1] != delimiter, s[2..]);
    } else if s != "" && (raw || s[0] != '\\') && s[0] != delimiter {
      UsesOnlyInput(raw, delimiter, false, s[1..]);
    }
  }

  /** A line that was ended by its delimiter does not depend on what follows it. */
  lemma {:induction false} LineIgnoresTheRest(raw: bool, delimiter: char, q: bool, s: string, t: string)
    requires (var line := LineOf(raw, delimiter, q, s); line.hit && s[..Least(line.used, |s|)] <= t)
    ensures LineOf(raw, delimiter, q, t) == LineOf(raw, delimiter, q, s)
    decreases |s|
  {
    UsesOnlyInput(raw, delimiter, q, s);
    if !raw && s[0] == '\\' {
      var q' := s[1] != '\n' && s[1] != delimiter;
      UsesOnlyInput(raw, delimiter, q', s[2..]);
      assert |t| >= 2 && t[0] == s[0] && t[1] == s[1];
      LineIgnoresTheRest(raw, delimiter, q', s[2..], t[2..]);
    } else if s[0] != delimiter {
      UsesOnlyInput(raw, delimiter, false, s[1..]);
      assert |t| >= 1 && t[0] == s[0];
      LineIgnoresTheRest(raw, delimiter, false, s[1..], t[1..]);
    }
  }

  function Values(bytes: seq<Byte>): (r: string)
    ensures |r| == |bytes|
    ensures forall k :: 0 <= k < |bytes| ==> r[k] == bytes[k].value
  {
    seq(|bytes|, k requires 0 <= k < |bytes| => bytes[k].value)
  }

  function Ending(line: Line, delimiter: char): string {
    if line.hit then [delimiter] else ""
  }

  /** The line is the input up to the first delimiter, byte by byte, and nothing in it is quoted. */
  predicate Verbatim(line: Line, delimiter: char, s: string) {
    && line.used <= |s|
    && s == Values(line.bytes) + Ending(line, delimiter) + s[line.used..]
    && line.bytes == Tag(Values(line.bytes), false)
    && delimiter !in Values(line.bytes)
    && (!line.hit ==> line.used == |s|)
  }

  lemma {:induction false} RawLineIsVerbatim(delimiter: char, q: bool, s: string)
    ensures Verbatim(LineOf(true, delimiter, q, s), delimiter, s)
    decreases |s|
  {
    if s != "" && s[0] != delimiter {
      var rest := LineOf(true, delimiter, false, s[1..]);
      assert LineOf(true, delimiter, q, s) == Prepend([Byte(s[0], false)], 1, rest);
      hide LineOf, Verbatim;
      RawLineIsVerbatim(delimiter, false, s[1..]);
      OneByteVerbatim(s[0], rest, delimiter, s[1..]);
      assert s == [s[0]] + s[1..];
    }
  }

  lemma OneByteVerbatim(c: char, rest: Line, delimiter: char, s: string)
    requires Verbatim(rest, delimiter, s) && c != delimiter
    ensures Verbatim(Prepend([Byte(c, false)], 1, rest), delimiter, [c] + s)
  {
    hide Values, Tag;
    OneByteMore(c, rest.bytes);
    assert ([c] + s)[1 + rest.used..] == s[rest.used..];
  }

  lemma OneByteMore(c: char, bytes: seq<Byte>)
    ensures Values([Byte(c, false)] + bytes) == [c] + Values(bytes)
    ensures bytes == Tag(Values(bytes), false) ==> [Byte(c, false)] + bytes == Tag([c] + Values(bytes), false)
  {
  }

  /** `while read -r`: the lines that repeated calls return, each with its ending. */
  function AllLines(delimiter: char, s: string): seq<string>
    decreases |s|
  {
    RawLineIsVerbatim(delimiter, false, s);
    var line := LineOf(true, delimiter, false, s);
    if s == "" then [] else [Values(line.bytes) + Ending(line, delimiter)] + AllLines(delimiter, s[line.used..])
  }

  function Join(parts: seq<string>): string {
    if parts == [] then "" else parts[0] + Join(parts[1..])
  }

  /** Reading a file line by line loses nothing. */
  lemma {:induction false} LinesRebuildTheFile(delimiter: char, s: string)
    ensures Join(AllLines(delimiter, s)) == s
    decreases |s|
  {
    if s != "" {
      RawLineIsVerbatim(delimiter, false, s);
      var line := LineOf(true, delimiter, false, s);
      LinesRebuildTheFile(delimiter, s[line.used..]);
      assert AllLines(delimiter, s)[1..] == AllLines(delimiter, s[line.used..]);
    }
  }

  function Escape(v: string): (r: string)
  {
    if v == "" then "" else ['\\', v[0]] + Escape(v[1..])
  }

  /** Backslash before every byte protects any text without newline or delimiter: it is read
      as that text, wholly quoted. */
  lemma {:induction false} EscapedTextIsQuoted(delimiter: char, q: bool, v: string, rest: string)
    requires '\n' !in v && delimiter !in v && delimiter != '\\'
    ensures LineOf(false, delimiter, q, Escape(v) + [delimiter] + rest) == Line(Tag(v, true), true, 2 * |v| + 1)
    decreases |v|
  {
    var s := Escape(v) + [delimiter] + rest;
    if v != "" {
      EscapedTextIsQuoted(delimiter, true, v[1..], rest);
      assert s[2..] == Escape(v[1..]) + [delimiter] + rest;
      assert [Byte(v[0], true)] + Tag(v[1..], true) == Tag(v, true);
    }
  }

  /** Bytes that mean themselves are taken as they are, up to the delimiter. */
  lemma {:induction false} PlainBytesAreTaken(delimiter: char, q: bool, a: string, rest: string)
    requires '\\' !in a && delimiter !in a && delimiter != '\\'
    ensures LineOf(false, delimiter, q, a + rest)
         == if a == "" then LineOf(false, delimiter, q, rest)
            else Prepend(Tag(a, false), |a|, LineOf(false, delimiter, false, rest))
    decreases |a|
  {
    if a == "" {
      assert a + rest == rest;
    } else {
      PlainBytesAreTaken(delimiter, false, a[1..], rest);
      hide Tag;
      TagOneMore(a);
      assert (a + rest)[1..] == a[1..] + rest;
      var tail := LineOf(false, delimiter, false, rest);
      assert [Byte(a[0], false)] + (Tag(a[1..], false) + tail.bytes) == Tag(a, false) + tail.bytes;
    }
  }

  lemma TagOneMore(a: string)
    requires a != ""
    ensures Tag(a, false) == [Byte(a[0], false)] + Tag(a[1..], false)
  {
  }

  /** A backslash before a newline joins two lines, and before the delimiter it keeps the line
      going; the delimiter by itself ends the line. */
  lemma LinesAreJoined(delimiter: char, q: bool, a: string, c: char, rest: string)
    requires '\\' !in a && delimiter !in a && delimiter != '\\' && c in {'\n', delimiter}
    ensures LineOf(false, delimiter, q, a + ("\\" + [c] + rest))
         == Prepend(Tag(a, false), |a| + 2, LineOf(false, delimiter, false, rest))
    ensures LineOf(false, delimiter, q, a + ([delimiter] + rest)) == Line(Tag(a, false), true, |a| + 1)
  {
    hide Tag;
    var joined, ended := "\\" + [c] + rest, [delimiter] + rest;
    PlainBytesAreTaken(delimiter, q, a, joined);
    PlainBytesAreTaken(delimiter, q, a, ended);
    assert joined[2..] == rest;
    assert a == "" ==> Tag(a, false) == [];
    assert Tag(a, false) + [] == Tag(a, false);
    assert Tag(a, false) + ([] + LineOf(false, delimiter, false, rest).bytes) == Tag(a, false) + LineOf(false, delimiter, false, rest).bytes;
  }
}
