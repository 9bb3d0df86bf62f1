/** Logical paths (src/builtin/cd.rs, src/builtin/pwd.rs). */
module LogicalPath {

  /** `slice::split` on '/': always at least one piece. */
  function Split(s: string): (r: seq<string>)
    ensures r != []
  {
    if s == "" then [""]
    else
      var rest := Split(s[1..]);
      if s[0] == '/' then [""] + rest else [[s[0]] + rest[0]] + rest[1..]
  }

  /** One component against the stack of those kept so far. */
  function Step(stack: seq<string>, part: string): seq<string> {
    if part == "" || part == "." then stack
    else if part == ".." then
      if stack == [] then stack else stack[..|stack| - 1]
    else stack + [part]
  }

  function Walk(stack: seq<string>, parts: seq<string>): seq<string>
    decreases |parts|
  {
    if parts == [] then stack else Walk(Step(stack, parts[0]), parts[1..])
  }

  function Rooted(components: seq<string>): string {
    if components == [] then ""
    else Rooted(components[..|components| - 1]) + "/" + components[|components| - 1]
  }

  /** The canonical form: walk the components from the root and write down where that leads. */
  function Canonical(path: string): string {
    var components := Walk([], Split(path));
    if components == [] then "/" else Rooted(components)
  }

  method CanonicalizeLogicalPath(path: string) returns (result: string)
    ensures result == Canonical(path)
  {
    var components: seq<string> := [];
    var parts := Split(path);
    for i := 0 to |parts|
      invariant Walk([], parts) == Walk(components, parts[i..])
    {
      assert parts[i..][0] == parts[i] && parts[i..][1..] == parts[i + 1..];
      var part := parts[i];
      if part == "" || part == "." {
      } else if part == ".." {
        if |components| > 0 {
          components := components[..|components| - 1];
        }
      } else {
        components := components + [part];
      }
    }
    if |components| == 0 {
      return "/";
    }
    result := "";
    for i := 0 to |components|
      invariant result == Rooted(components[..i])
    {
      assert components[..i + 1][..i] == components[..i];
      result := result + "/" + components[i];
    }
    assert components[..|components|] == components;
  }

  /** `cd`'s operand made absolute against the current directory and canonicalised. */
  function Curpath(pwd: string, target: string): string {
    Canonical(Joined(pwd, target))
  }

  function Joined(pwd: string, target: string): string {
    if target != "" && target[0] == '/' then target
    else if pwd != "" && pwd[|pwd| - 1] == '/' then pwd + target
    else pwd + "/" + target
  }

  /** `logical_pwd_is_valid`: absolute, with no `.` or `..` component. */
  predicate LogicalPwdIsValid(path: string) {
    && path != "" && path[0] == '/'
    && forall c | c in Split(path) :: c != "." && c != ".."
  }

  // ----- Splitting -----

  lemma {:induction false} SplitJoined(a: string, b: string)
    ensures Split(a + "/" + b) == Split(a) + Split(b)
  {
    if a == "" {
      SplitCons('/', b);
      assert a + "/" + b == ['/'] + b;
    } else {
      hide Split;
      var c, tail := a[0], a[1..];
      SplitJoined(tail, b);
      HeadFirst(a, b);
      SplitCons(c, tail);
      SplitCons(c, tail + "/" + b);
      FirstOfConcat(c, Split(tail), Split(b));
    }
  }

  lemma HeadFirst(a: string, b: string)
    requires a != ""
    ensures a == [a[0]] + a[1..] && a + "/" + b == [a[0]] + (a[1..] + "/" + b)
  {
  }

  lemma SplitCons(c: char, s: string)
    ensures Split([c] + s) == if c == '/' then [""] + Split(s) else [[c] + Split(s)[0]] + Split(s)[1..]
  {
    assert ([c] + s)[1..] == s;
  }

  /** A byte in front of the first piece, or a new piece, before or after more are added. */
  lemma FirstOfConcat(c: char, p: seq<string>, q: seq<string>)
    requires p != []
    ensures [[c] + (p + q)[0]] + (p + q)[1..] == [[c] + p[0]] + p[1..] + q
    ensures [""] + (p + q) == [""] + p + q
  {
    assert (p + q)[1..] == p[1..] + q;
  }

  predicate NoSlash(s: string) {
    forall k :: 0 <= k < |s| ==> s[k] != '/'
  }

  lemma {:induction false} SplitPiece(s: string)
    requires NoSlash(s)
    ensures Split(s) == [s]
  {
    if s != "" {
      SplitPiece(s[1..]);
      assert [s[0]] + s[1..] == s;
    }
  }

  lemma {:induction false} PiecesHaveNoSlash(s: string)
    ensures forall c | c in Split(s) :: NoSlash(c)
  {
    if s != "" {
      PiecesHaveNoSlash(s[1..]);
      var rest := Split(s[1..]);
      assert rest[0] in rest;
      assert forall c | c in rest[1..] :: c in rest;
    }
  }

  // ----- Walking -----

  lemma {:induction false} WalkConcat(stack: seq<string>, p: seq<string>, q: seq<string>)
    ensures Walk(stack, p + q) == Walk(Walk(stack, p), q)
    decreases |p|
  {
    if p == [] {
      assert p + q == q;
    } else {
      assert (p + q)[0] == p[0] && (p + q)[1..] == p[1..] + q;
      WalkConcat(Step(stack, p[0]), p[1..], q);
    }
  }

  /** A component that a walk keeps. */
  predicate Plain(c: string) {
    c != "" && c != "." && c != ".." && NoSlash(c)
  }

  predicate AllPlain(cs: seq<string>) {
    forall c | c in cs :: Plain(c)
  }

  lemma {:induction false} WalkIsPlain(stack: seq<string>, parts: seq<string>)
    requires AllPlain(stack) && forall c | c in parts :: NoSlash(c)
    ensures AllPlain(Walk(stack, parts))
    decreases |parts|
  {
    if parts != [] {
      assert parts[0] in parts;
      assert forall c | c in parts[1..] :: c in parts;
      WalkIsPlain(Step(stack, parts[0]), parts[1..]);
    }
  }

  lemma {:induction false} WalkPlain(stack: seq<string>, cs: seq<string>)
    requires AllPlain(cs)
    ensures Walk(stack, cs) == stack + cs
    decreases |cs|
  {
    if cs == [] {
      assert stack + cs == stack;
    } else {
      assert cs[0] in cs;
      assert forall c | c in cs[1..] :: c in cs;
      WalkPlain(stack + [cs[0]], cs[1..]);
      assert stack + [cs[0]] + cs[1..] == stack + cs;
    }
  }

  /** A canonical path splits into an empty piece and its components. */
  lemma {:induction false} SplitRooted(cs: seq<string>)
    requires AllPlain(cs)
    ensures Split(Rooted(cs)) == [""] + cs
  {
    if cs != [] {
      var n := |cs| - 1;
      assert cs[n] in cs;
      assert forall c | c in cs[..n] :: c in cs;
      SplitRooted(cs[..n]);
      SplitPiece(cs[n]);
      SplitJoined(Rooted(cs[..n]), cs[n]);
      assert [""] + cs[..n] + [cs[n]] == [""] + cs;
    }
  }

  /** Walking a canonical path leads where walking the original does, from any directory it is
      joined under, because it starts at the root. */
  lemma CanonicalWalks(path: string)
    ensures Walk([], Split(Canonical(path))) == Walk([], Split(path))
    ensures AllPlain(Walk([], Split(path)))
  {
    PiecesHaveNoSlash(path);
    var cs := Walk([], Split(path));
    WalkIsPlain([], Split(path));
    if cs == [] {
      assert "/" == "" + "/" + "";
      SplitJoined("", "");
      assert Walk([], ["", ""]) == [] by {
        assert ["", ""][1..] == [""] && [""][1..] == [];
      }
    } else {
      SplitRooted(cs);
      assert ([""] + cs)[1..] == cs;
      WalkPlain([], cs);
      assert [] + cs == cs;
    }
  }

  // ----- The theorems -----

  /** Canonicalising the directory part first makes no difference. */
  lemma CanonicalThenJoin(a: string, b: string)
    ensures Canonical(Canonical(a) + "/" + b) == Canonical(a + "/" + b)
  {
    SplitJoined(Canonical(a), b);
    SplitJoined(a, b);
    WalkConcat([], Split(Canonical(a)), Split(b));
    WalkConcat([], Split(a), Split(b));
    CanonicalWalks(a);
  }

  lemma CanonicalIdempotent(path: string)
    ensures Canonical(Canonical(path)) == Canonical(path)
  {
    CanonicalWalks(path);
  }

  lemma {:induction false} RootedStarts(cs: seq<string>)
    ensures cs != [] ==> Rooted(cs) != "" && Rooted(cs)[0] == '/'
  {
    if |cs| > 1 {
      RootedStarts(cs[..|cs| - 1]);
    } else if |cs| == 1 {
      assert cs[..0] == [];
    }
  }

  /** The directory that `cd` records passes the test `pwd` and the next `cd` apply to it. */
  lemma CanonicalIsValid(path: string)
    ensures LogicalPwdIsValid(Canonical(path))
  {
    var cs := Walk([], Split(path));
    CanonicalWalks(path);
    RootedStarts(cs);
    if cs == [] {
      assert "/" == "" + "/" + "";
      SplitJoined("", "");
    } else {
      SplitRooted(cs);
    }
  }

  /** A final slash or a doubled one changes nothing. */
  lemma SlashesCollapse(a: string, b: string)
    ensures Canonical(a + "/" + "/" + b) == Canonical(a + "/" + b)
    ensures Canonical(a + "/") == Canonical(a)
  {
    SplitJoined(a + "/", b);
    SplitJoined(a, "");
    SplitJoined(a, b);
    assert a + "/" + "" == a + "/";
    WalkConcat([], Split(a) + [""], Split(b));
    WalkConcat([], Split(a), [""]);
    WalkConcat([], Split(a), Split(b));
    assert [""][1..] == [];
  }

  /** Two changes of directory are one change by the joined operand. */
  lemma TwoChangesAreOne(pwd: string, a: string, b: string)
    requires a != "" && (b == "" || b[0] != '/')
    ensures Curpath(Curpath(pwd, a), b) == Curpath(pwd, a + "/" + b)
  {
    hide Canonical;
    var first := Joined(pwd, a);
    CanonicalIsValid(first);
    JoinedIsCanonical(Canonical(first), b);
    CanonicalThenJoin(first, b);
    assert pwd + (a + "/" + b) == (pwd + a) + "/" + b;
    assert pwd + "/" + (a + "/" + b) == (pwd + "/" + a) + "/" + b;
    assert first + "/" + b == Joined(pwd, a + "/" + b);
  }

  /** Joining under a directory that ends in a slash or not is all the same. */
  lemma JoinedIsCanonical(dir: string, b: string)
    requires dir != "" && (b == "" || b[0] != '/')
    ensures Canonical(Joined(dir, b)) == Canonical(dir + "/" + b)
  {
    hide Canonical;
    if dir[|dir| - 1] == '/' {
      var cut := dir[..|dir| - 1];
      assert dir == cut + "/";
      assert dir + b == cut + "/" + b;
      assert dir + "/" + b == cut + "/" + "/" + b;
      SlashesCollapse(cut, b);
    }
  }

  // ----- What each kind of component does -----

  lemma OneMoreComponent(a: string, c: string)
    requires NoSlash(c)
    ensures Walk([], Split(a + "/" + c)) == Step(Walk([], Split(a)), c)
  {
    SplitJoined(a, c);
    SplitPiece(c);
    WalkConcat([], Split(a), [c]);
    assert [c][1..] == [];
  }

  /** A component is written after the directory, of which the root is the empty one. */
  lemma ComponentIsAppended(a: string, c: string)
    requires Plain(c)
    ensures Canonical(a + "/" + c) == (if Canonical(a) == "/" then "" else Canonical(a)) + "/" + c
  {
    var stack := Walk([], Split(a));
    OneMoreComponent(a, c);
    assert (stack + [c])[..|stack|] == stack;
    assert Rooted(stack + [c]) == Rooted(stack) + "/" + c;
    CanonicalWalks(a);
    if stack != [] {
      RootIsNoOther(stack);
    } else {
      assert "" + "/" + c == Rooted(stack + [c]);
    }
  }

  lemma RootIsNoOther(cs: seq<string>)
    requires AllPlain(cs) && cs != []
    ensures Rooted(cs) != "/"
  {
    var last := cs[|cs| - 1];
    assert last in cs;
    var front := Rooted(cs[..|cs| - 1]);
    assert |Rooted(cs)| == |front| + 1 + |last|;
  }

  /** `..` takes the component before it away; at the root it does nothing, and `.` never does. */
  lemma DotDotRemoves(a: string, c: string)
    requires Plain(c)
    ensures Canonical(a + "/" + c + "/" + "..") == Canonical(a)
    ensures Canonical("/" + "..") == "/"
    ensures Canonical(a + "/" + ".") == Canonical(a)
  {
    var stack := Walk([], Split(a));
    OneMoreComponent(a, c);
    OneMoreComponent(a + "/" + c, "..");
    assert (stack + [c])[..|stack|] == stack;
    OneMoreComponent("", "..");
    assert "" + "/" + ".." == "/" + "..";
    OneMoreComponent(a, ".");
    assert [""][1..] == [];
    assert Walk([], Split("")) == [];
  }

  /** The components of a path that starts at the root are kept in order. */
  lemma {:induction false} PlainPathIsCanonical(cs: seq<string>)
    requires AllPlain(cs) && cs != []
    ensures Canonical(Rooted(cs)) == Rooted(cs)
  {
    SplitRooted(cs);
    assert ([""] + cs)[1..] == cs;
    WalkPlain([], cs);
    assert [] + cs == cs;
  }

  /** An absolute operand of `cd` stands alone, any other is taken from the current directory. */
  lemma CurpathOfOperand(pwd: string, target: string)
    requires pwd != ""
    ensures Curpath(pwd, "/" + target) == Canonical("/" + target)
    ensures target == "" || target[0] != '/' ==> Curpath(pwd, target) == Canonical(pwd + "/" + target)
  {
    if target == "" || target[0] != '/' {
      JoinedIsCanonical(pwd, target);
    }
  }

  /** The test for a logical directory: absolute, and no component is `.` or `..`. */
  lemma ValidByComponents(path: string, a: string, c: string)
    requires NoSlash(c)
    ensures LogicalPwdIsValid(path) ==> path != "" && path[0] == '/'
    ensures LogicalPwdIsValid("/" + c) <==> c != "." && c != ".."
    ensures a != "" ==> (LogicalPwdIsValid(a + "/" + c) <==> LogicalPwdIsValid(a) && c != "." && c != "..")
  {
    SplitPiece(c);
    SplitJoined(a, c);
    SplitJoined("", c);
    assert "" + "/" + c == "/" + c;
    OneMorePiece("/" + c, [""], c);
    if a != "" && a[0] == '/' {
      OneMorePiece(a + "/" + c, Split(a), c);
    }
  }

  lemma OneMorePiece(path: string, parts: seq<string>, c: string)
    requires Split(path) == parts + [c] && path != "" && path[0] == '/'
    ensures LogicalPwdIsValid(path) <==> c != "." && c != ".." && forall x | x in parts :: x != "." && x != ".."
  {
    assert c in parts + [c] && forall x | x in parts :: x in parts + [c];
  }
}
