/** The guard of in-shell redirections (src/exec/redirection.rs): it saves the descriptors a
    list redirects and puts them back. Lists and targets are arbitrary. */
module FdGuard {
  import opened Wrappers
  import opened FdKernel
  import opened FdRedirection

  /** A target, and the descriptor its description was copied to if it was open. */
  datatype Saved = Saved(target: nat, copy: Option<nat>)

  datatype Guard = Empty | Holding(saved: seq<Saved>)

  function SavedOf(g: Guard): seq<Saved> {
    if g.Empty? then [] else g.saved
  }

  // ----- Dropping the guard -----

  /** One entry replayed: dup2 of the copy, which is then closed, or close of the target. */
  function ReplayOne(table: Table, s: Saved): Table {
    match s.copy
    case Some(c) => (if c in table then Duplicated(table, c, s.target) else table) - {c}
    case None => table - {s.target}
  }

  /** The entries from the last down to the k-th, replayed. */
  function ReplayFrom(saved: seq<Saved>, table: Table, k: nat): Table
    requires k <= |saved|
    decreases |saved| - k
  {
    if k == |saved| then table else ReplayOne(ReplayFrom(saved, table, k + 1), saved[k])
  }

  function Replay(saved: seq<Saved>, table: Table): Table {
    ReplayFrom(saved, table, 0)
  }

  method DropGuard(p: Process, g: Guard)
    modifies p`table
    ensures p.table == Replay(SavedOf(g), old(p.table))
  {
    if g.Empty? {
      return;
    }
    var k := |g.saved|;
    while k > 0
      invariant 0 <= k <= |g.saved|
      invariant p.table == ReplayFrom(g.saved, old(p.table), k)
    {
      k := k - 1;
      var s := g.saved[k];
      if s.copy.Some? {
        var _ := p.Duplicate(s.copy.value, s.target);
        var _ := p.Close(s.copy.value);
      } else {
        var _ := p.Close(s.target);
      }
    }
  }

  // ----- What applying a list builds up -----

  /** The guard and the table part-way through a list; `was` is the description each target
      had when it was saved. */
  datatype Held = Held(saved: seq<Saved>, was: seq<Option<Description>>, table: Table)

  function DescOf(table: Table, fd: nat): Option<Description> {
    if fd in table then Some(table[fd].desc) else None
  }

  /** Some entry below the k-th has this target. */
  predicate TargetBelow(saved: seq<Saved>, k: nat, fd: nat)
    requires k <= |saved|
  {
    exists j :: 0 <= j < k && saved[j].target == fd
  }

  predicate CopyBelow(saved: seq<Saved>, k: nat, fd: nat)
    requires k <= |saved|
  {
    exists j :: 0 <= j < k && saved[j].copy == Some(fd)
  }

  predicate IsSaved(saved: seq<Saved>, fd: nat) {
    TargetBelow(saved, |saved|, fd)
  }

  predicate IsCopy(saved: seq<Saved>, fd: nat) {
    CopyBelow(saved, |saved|, fd)
  }

  /** A target not saved before is saved, with a copy at the lowest free private number. */
  function Saving(h: Held, fd: nat): Held {
    if IsSaved(h.saved, fd) then h
    else if fd in h.table then
      var c := LowestFree(h.table, FIRST_PRIVATE);
      Held(h.saved + [Saved(fd, Some(c))], h.was + [Some(h.table[fd].desc)], h.table[c := Slot(h.table[fd].desc, true)])
    else Held(h.saved + [Saved(fd, None)], h.was + [None], h.table)
  }

  /** One redirection: its target is saved, then it takes effect. */
  function Step(h: Held, r: Redirection, d: Description): Option<Held>
    requires Valid(r)
  {
    var s := Saving(h, r.fd);
    match Redirected(s.table, r, d)
    case None => None
    case Some(table) => Some(s.(table := table))
  }

  function Run(origin: Table, rs: seq<Redirection>, ds: seq<Description>): (h: Option<Held>)
    requires |ds| == |rs| && forall r | r in rs :: Valid(r)
    ensures h.Some? ==> |h.value.saved| == |h.value.was|
  {
    if rs == [] then Some(Held([], [], origin))
    else
      var n := |rs| - 1;
      assert forall r | r in rs[..n] :: r in rs;
      match Run(origin, rs[..n], ds[..n])
      case None => None
      case Some(h) => Step(h, rs[n], ds[n])
  }

  // ----- What holds in every state of a run -----

  /** The copy's number had already been saved as a target when it was chosen. */
  predicate Reused(saved: seq<Saved>, k: nat)
    requires k < |saved|
  {
    saved[k].copy.Some? && TargetBelow(saved, k, saved[k].copy.value)
  }

  predicate Entry(h: Held, origin: Table, k: nat)
    requires k < |h.saved| == |h.was|
  {
    var s := h.saved[k];
    && (s.copy.Some? <==> h.was[k].Some?)
    && (s.copy.Some? ==>
          && s.copy.value >= FIRST_PRIVATE && s.copy.value != s.target
          && (!Reused(h.saved, k) ==> s.copy.value !in origin))
    && (if CopyBelow(h.saved, k, s.target) then s.target !in origin
        else h.was[k] == DescOf(origin, s.target))
  }

  predicate Pair(h: Held, j: nat, k: nat)
    requires j < k < |h.saved| == |h.was|
  {
    && h.saved[j].target != h.saved[k].target
    && (h.saved[j].copy.Some? && h.saved[j].copy == h.saved[k].copy ==> Reused(h.saved, k))
    && (h.saved[j].copy == Some(h.saved[k].target) ==> h.was[k] == h.was[j])
  }

  /** The invariant of a run. Nothing is said of the targets in the table: they may be anything. */
  predicate Consistent(h: Held, origin: Table) {
    && |h.was| == |h.saved|
    && (forall k :: 0 <= k < |h.saved| ==> Entry(h, origin, k))
    && (forall j, k :: 0 <= j < k < |h.saved| ==> Pair(h, j, k))
    && (forall k :: 0 <= k < |h.saved| ==> CopyIntact(h, k))
    && forall fd :: fd in h.table.Keys + origin.Keys ==> Untouched(h, origin, fd)
  }

  /** A copy that is no target still holds what was copied. */
  predicate CopyIntact(h: Held, k: nat)
    requires k < |h.saved| == |h.was|
  {
    var copy := h.saved[k].copy;
    copy.Some? && !IsSaved(h.saved, copy.value) ==> DescOf(h.table, copy.value) == h.was[k]
  }

  predicate Same(a: Table, b: Table, fd: nat) {
    (fd in a <==> fd in b) && (fd in a ==> a[fd] == b[fd])
  }

  predicate Untouched(h: Held, origin: Table, fd: nat) {
    !IsSaved(h.saved, fd) && !IsCopy(h.saved, fd) ==> Same(h.table, origin, fd)
  }

  /** One more entry in the predicates over the saved list. */
  lemma Extended(saved: seq<Saved>, s: Saved)
    ensures forall k, fd: nat :: 0 <= k <= |saved| ==> (TargetBelow(saved + [s], k, fd) <==> TargetBelow(saved, k, fd))
    ensures forall k, fd: nat :: 0 <= k <= |saved| ==> (CopyBelow(saved + [s], k, fd) <==> CopyBelow(saved, k, fd))
    ensures forall fd: nat :: IsSaved(saved + [s], fd) <==> IsSaved(saved, fd) || s.target == fd
    ensures forall fd: nat :: IsCopy(saved + [s], fd) <==> IsCopy(saved, fd) || s.copy == Some(fd)
  {
    var more := saved + [s];
    assert more[|saved|] == s;
    assert forall j :: 0 <= j < |saved| ==> more[j] == saved[j];
    forall k: nat, fd: nat | k <= |saved|
      ensures TargetBelow(more, k, fd) <==> TargetBelow(saved, k, fd)
      ensures CopyBelow(more, k, fd) <==> CopyBelow(saved, k, fd)
    {
      if TargetBelow(saved, k, fd) {
        var j :| 0 <= j < k && saved[j].target == fd;
        assert more[j].target == fd;
      }
      if CopyBelow(saved, k, fd) {
        var j :| 0 <= j < k && saved[j].copy == Some(fd);
        assert more[j].copy == Some(fd);
      }
    }
    forall fd: nat
      ensures IsSaved(more, fd) <==> IsSaved(saved, fd) || s.target == fd
      ensures IsCopy(more, fd) <==> IsCopy(saved, fd) || s.copy == Some(fd)
    {
      if IsSaved(saved, fd) {
        var j :| 0 <= j < |saved| && saved[j].target == fd;
        assert more[j].target == fd;
      }
      if IsCopy(saved, fd) {
        var j :| 0 <= j < |saved| && saved[j].copy == Some(fd);
        assert more[j].copy == Some(fd);
      }
    }
  }

  /** A number not saved so far is closed where a copy was not made there, and holds what was
      copied there otherwise. */
  lemma FreeIsNoCopy(h: Held, origin: Table, fd: nat)
    requires Consistent(h, origin) && !IsSaved(h.saved, fd)
    ensures fd !in h.table ==> fd !in origin && !IsCopy(h.saved, fd)
    ensures IsCopy(h.saved, fd) ==> fd !in origin
    ensures !IsCopy(h.saved, fd) ==> Same(h.table, origin, fd)
    ensures forall j :: 0 <= j < |h.saved| && h.saved[j].copy == Some(fd) ==> h.was[j] == DescOf(h.table, fd)
  {
    forall j | 0 <= j < |h.saved| && h.saved[j].copy == Some(fd)
      ensures fd in h.table && fd !in origin && h.was[j] == DescOf(h.table, fd)
    {
      assert CopyIntact(h, j) && Entry(h, origin, j);
      assert Reused(h.saved, j) ==> IsSaved(h.saved, fd);
    }
    if !IsCopy(h.saved, fd) && fd in h.table.Keys + origin.Keys {
      assert Untouched(h, origin, fd);
    }
  }

  lemma SavingIsConsistent(h: Held, origin: Table, fd: nat)
    requires Consistent(h, origin)
    ensures Consistent(Saving(h, fd), origin) && IsSaved(Saving(h, fd).saved, fd)
  {
    if !IsSaved(h.saved, fd) {
      var n := |h.saved|;
      var s := Saving(h, fd);
      Extended(h.saved, s.saved[n]);
      assert s.saved == h.saved + [s.saved[n]];
      FreeIsNoCopy(h, origin, fd);
      if fd in h.table && !IsSaved(h.saved, s.saved[n].copy.value) {
        FreeIsNoCopy(h, origin, s.saved[n].copy.value);
      }
      forall k | 0 <= k < n ensures Entry(s, origin, k) && CopyIntact(s, k) && Pair(s, k, n) {
        assert Entry(h, origin, k) && CopyIntact(h, k);
      }
      forall j, k | 0 <= j < k < n ensures Pair(s, j, k) {
        assert Pair(h, j, k);
      }
      forall x | x in s.table.Keys + origin.Keys ensures Untouched(s, origin, x) {
        if x in h.table.Keys + origin.Keys {
          assert Untouched(h, origin, x);
        }
      }
    }
  }

  /** Whatever happens to a saved descriptor. */
  lemma SavedMayChange(h: Held, origin: Table, fd: nat, later: Table)
    requires Consistent(h, origin) && IsSaved(h.saved, fd)
    requires forall x: nat :: x != fd ==> Same(h.table, later, x)
    ensures Consistent(h.(table := later), origin)
  {
    var s := h.(table := later);
    forall k | 0 <= k < |h.saved| ensures Entry(s, origin, k) && CopyIntact(s, k) {
      assert Entry(h, origin, k) && CopyIntact(h, k);
      if h.saved[k].copy.Some? {
        assert h.saved[k].copy.value != fd ==> Same(h.table, later, h.saved[k].copy.value);
      }
    }
    forall j, k | 0 <= j < k < |h.saved| ensures Pair(s, j, k) {
      assert Pair(h, j, k);
    }
    forall x | x in s.table.Keys + origin.Keys ensures Untouched(s, origin, x) {
      assert x != fd ==> Same(h.table, later, x);
      if x in h.table.Keys + origin.Keys {
        assert Untouched(h, origin, x);
      }
    }
  }

  lemma RedirectedChanges(table: Table, r: Redirection, d: Description)
    requires Valid(r) && Redirected(table, r, d).Some?
    ensures forall x: nat :: x != r.fd ==> Same(table, Redirected(table, r, d).value, x)
  {
  }

  lemma StepIsConsistent(h: Held, origin: Table, r: Redirection, d: Description)
    requires Consistent(h, origin) && Valid(r) && Step(h, r, d).Some?
    ensures Consistent(Step(h, r, d).value, origin)
  {
    hide Consistent;
    SavingIsConsistent(h, origin, r.fd);
    var s := Saving(h, r.fd);
    RedirectedChanges(s.table, r, d);
    SavedMayChange(s, origin, r.fd, Redirected(s.table, r, d).value);
  }

  lemma RunStep(origin: Table, rs: seq<Redirection>, ds: seq<Description>, n: nat)
    requires n < |rs| && n < |ds| && forall r | r in rs :: Valid(r)
    ensures Valid(rs[n])
    ensures forall r | r in rs[..n] :: Valid(r)
    ensures forall r | r in rs[..n + 1] :: Valid(r)
    ensures Run(origin, rs[..n + 1], ds[..n + 1])
         == (var before := Run(origin, rs[..n], ds[..n]);
             if before.None? then None else Step(before.value, rs[n], ds[n]))
  {
    assert forall r | r in rs[..n + 1] :: r in rs;
    assert forall r | r in rs[..n] :: r in rs;
    assert rs[..n + 1][..n] == rs[..n] && ds[..n + 1][..n] == ds[..n];
    assert rs[n] in rs;
  }

  lemma {:induction false} RunIsConsistent(origin: Table, rs: seq<Redirection>, ds: seq<Description>)
    requires |ds| == |rs| && forall r | r in rs :: Valid(r)
    requires Run(origin, rs, ds).Some?
    ensures Consistent(Run(origin, rs, ds).value, origin)
  {
    if rs != [] {
      var n := |rs| - 1;
      assert forall r | r in rs[..n] :: r in rs;
      RunIsConsistent(origin, rs[..n], ds[..n]);
      StepIsConsistent(Run(origin, rs[..n], ds[..n]).value, origin, rs[n], ds[n]);
    }
  }

  // ----- When dropping the guard restores the targets -----

  /** Every number that was a target before it was chosen for a copy still holds what was
      copied there, and has not been chosen again. */
  ghost predicate CopiesHold(h: Held)
    requires |h.saved| == |h.was|
  {
    forall k :: 0 <= k < |h.saved| && Reused(h.saved, k) ==> CopyHolds(h, k)
  }

  ghost predicate CopyHolds(h: Held, k: nat)
    requires k < |h.saved| == |h.was| && h.saved[k].copy.Some?
  {
    && DescOf(h.table, h.saved[k].copy.value) == h.was[k]
    && forall m :: k < m < |h.saved| ==> h.saved[m].copy != h.saved[k].copy
  }

  /** The copy of some entry that is read as it is: no later entry puts it back first. */
  predicate Needed(saved: seq<Saved>, fd: nat) {
    exists k :: 0 <= k < |saved| && saved[k].copy == Some(fd) && !TargetIn(saved, k + 1, |saved|, fd)
  }

  predicate TargetIn(saved: seq<Saved>, a: nat, b: nat, fd: nat)
    requires a <= b <= |saved|
  {
    exists j :: a <= j < b && saved[j].target == fd
  }

  predicate CopyIn(saved: seq<Saved>, a: nat, b: nat, fd: nat)
    requires a <= b <= |saved|
  {
    exists j :: a <= j < b && saved[j].copy == Some(fd)
  }

  /** What ran between applying and dropping left the needed copies alone. */
  ghost predicate Spares(h: Held, now: Table) {
    forall fd: nat :: Needed(h.saved, fd) ==> DescOf(now, fd) == DescOf(h.table, fd)
  }

  /** The targets are back, the copies are gone, and the rest is as it was before the drop. */
  ghost predicate Restored(saved: seq<Saved>, origin: Table, now: Table, after: Table) {
    forall fd: nat ::
      if IsSaved(saved, fd) then IsBack(origin, after, fd)
      else if IsCopy(saved, fd) then fd !in after && fd !in origin
      else Same(after, now, fd)
  }

  /** Closed as it was, or its description is back; dup2 clears close-on-exec. */
  predicate IsBack(origin: Table, after: Table, fd: nat) {
    (fd in after <==> fd in origin) && (fd in origin ==> after[fd] == Slot(origin[fd].desc, false))
  }

  /** Replaying the entries from a to b leaves a descriptor that is no target of theirs as it
      is, unless it is a copy of theirs, which is closed. */
  lemma {:induction false} ReplayKeeps(saved: seq<Saved>, now: Table, a: nat, b: nat, fd: nat)
    requires a <= b <= |saved| && !TargetIn(saved, a, b, fd)
    ensures CopyIn(saved, a, b, fd) ==> fd !in ReplayFrom(saved, now, a)
    ensures !CopyIn(saved, a, b, fd) ==> Same(ReplayFrom(saved, now, a), ReplayFrom(saved, now, b), fd)
    decreases b - a
  {
    if a < b {
      assert forall j :: a + 1 <= j < b ==> saved[j].target != fd;
      ReplayKeeps(saved, now, a + 1, b, fd);
      assert saved[a].target != fd;
      if CopyIn(saved, a + 1, b, fd) {
        var j :| a + 1 <= j < b && saved[j].copy == Some(fd);
        assert CopyIn(saved, a, b, fd);
      }
    }
  }

  /** When an entry is replayed, its copy holds what was saved. */
  lemma {:induction false} CopyIsThere(h: Held, origin: Table, now: Table, k: nat)
    requires Consistent(h, origin) && CopiesHold(h) && Spares(h, now)
    requires k < |h.saved| && h.saved[k].copy.Some?
    ensures DescOf(ReplayFrom(h.saved, now, k + 1), h.saved[k].copy.value) == h.was[k]
    decreases |h.saved| - k
  {
    var n, c := |h.saved|, h.saved[k].copy.value;
    assert Entry(h, origin, k) && CopyIntact(h, k);
    if TargetIn(h.saved, k + 1, n, c) {
      var m :| k + 1 <= m < n && h.saved[m].target == c;
      assert Pair(h, k, m) && Entry(h, origin, m);
      CopyIsThere(h, origin, now, m);
      NoOtherEntry(h, origin, m, 0, m);
      forall j | k < j < m ensures h.saved[j].target != c && h.saved[j].copy != Some(c) {
        assert Pair(h, k, j);
      }
      ReplayKeeps(h.saved, now, k + 1, m, c);
    } else {
      assert Needed(h.saved, c);
      assert IsSaved(h.saved, c) ==> Reused(h.saved, k);
      forall m | k < m < n ensures h.saved[m].copy != Some(c) {
        assert Pair(h, k, m);
        assert TargetBelow(h.saved, m, c) ==> Reused(h.saved, k);
      }
      ReplayKeeps(h.saved, now, k + 1, n, c);
    }
  }

  /** A target has one entry. */
  lemma NoOtherEntry(h: Held, origin: Table, k: nat, a: nat, b: nat)
    requires Consistent(h, origin) && k < |h.saved| && a <= b <= |h.saved|
    requires b <= k || k < a
    ensures !TargetIn(h.saved, a, b, h.saved[k].target)
  {
    forall j | a <= j < b ensures h.saved[j].target != h.saved[k].target {
      assert if j < k then Pair(h, j, k) else Pair(h, k, j);
    }
  }

  lemma CopiesHoldRestores(h: Held, origin: Table, now: Table)
    requires Consistent(h, origin) && CopiesHold(h) && Spares(h, now)
    ensures Restored(h.saved, origin, now, Replay(h.saved, now))
  {
    var n, after := |h.saved|, Replay(h.saved, now);
    forall fd: nat
      ensures if IsSaved(h.saved, fd) then IsBack(origin, after, fd)
              else if IsCopy(h.saved, fd) then fd !in after && fd !in origin
              else Same(after, now, fd)
    {
      if IsSaved(h.saved, fd) {
        var k :| 0 <= k < n && h.saved[k].target == fd;
        TargetIsBack(h, origin, now, k);
      } else {
        FreeIsNoCopy(h, origin, fd);
        ReplayKeeps(h.saved, now, 0, n, fd);
      }
    }
  }

  lemma TargetIsBack(h: Held, origin: Table, now: Table, k: nat)
    requires Consistent(h, origin) && CopiesHold(h) && Spares(h, now)
    requires k < |h.saved|
    ensures IsBack(origin, Replay(h.saved, now), h.saved[k].target)
  {
    var fd := h.saved[k].target;
    assert Entry(h, origin, k);
    if h.saved[k].copy.Some? {
      CopyIsThere(h, origin, now, k);
    }
    NoOtherEntry(h, origin, k, 0, k);
    ReplayKeeps(h.saved, now, 0, k, fd);
    assert CopyIn(h.saved, 0, k, fd) <==> CopyBelow(h.saved, k, fd);
  }

  // ----- And only then -----

  /** The targets that nobody needs are closed. */
  predicate OthersClosed(saved: seq<Saved>, now: Table) {
    forall j :: 0 <= j < |saved| && !Needed(saved, saved[j].target) ==> saved[j].target !in now
  }

  /** An entry whose copy is lost when it is replayed, although its target was closed, leaves
      some target unrestored: itself, or the one whose copy its target was. */
  lemma {:induction false} LostCopyShows(h: Held, origin: Table, now: Table, k: nat) returns (fd: nat)
    requires Consistent(h, origin) && k < |h.saved| && h.saved[k].copy.Some?
    requires OthersClosed(h.saved, now)
    requires DescOf(ReplayFrom(h.saved, now, k + 1), h.saved[k].copy.value) != h.was[k]
    ensures IsSaved(h.saved, fd) && !IsBack(origin, Replay(h.saved, now), fd)
  {
    hide Consistent, OthersClosed;
    fd := h.saved[k].target;
    TargetGone(h, origin, now, k);
    WhatWasSaved(h, origin, k);
    if CopyBelow(h.saved, k, fd) {
      var j := LastCopy(h.saved, k, fd);
      SavedFromCopy(h, origin, j, k);
      NoOtherEntry(h, origin, k, j + 1, k);
      ReplayKeeps(h.saved, now, j + 1, k, fd);
      fd := LostCopyShows(h, origin, now, j);
    } else {
      NoOtherEntry(h, origin, k, 0, k);
      ReplayKeeps(h.saved, now, 0, k, fd);
    }
  }

  lemma WhatWasSaved(h: Held, origin: Table, k: nat)
    requires Consistent(h, origin) && k < |h.saved|
    ensures |h.was| == |h.saved|
    ensures h.saved[k].copy.Some? ==> h.was[k].Some? && h.saved[k].copy.value != h.saved[k].target
    ensures !CopyBelow(h.saved, k, h.saved[k].target) ==> h.was[k] == DescOf(origin, h.saved[k].target)
  {
    assert Entry(h, origin, k);
  }

  lemma SavedFromCopy(h: Held, origin: Table, j: nat, k: nat)
    requires Consistent(h, origin) && j < k < |h.saved| && h.saved[j].copy == Some(h.saved[k].target)
    ensures |h.was| == |h.saved| && h.was[k] == h.was[j]
  {
    assert Pair(h, j, k);
  }

  lemma {:induction false} LastCopy(saved: seq<Saved>, k: nat, fd: nat) returns (j: nat)
    requires k <= |saved| && CopyBelow(saved, k, fd)
    ensures j < k && saved[j].copy == Some(fd) && !CopyIn(saved, j + 1, k, fd)
  {
    j := k - 1;
    if saved[k - 1].copy != Some(fd) {
      assert CopyBelow(saved, k - 1, fd);
      j := LastCopy(saved, k - 1, fd);
    }
  }

  /** A target that is needed is the copy of a later entry. */
  lemma NeededLater(h: Held, origin: Table, k: nat)
    requires Consistent(h, origin) && k < |h.saved| && Needed(h.saved, h.saved[k].target)
    ensures CopyIn(h.saved, k + 1, |h.saved|, h.saved[k].target)
  {
    var n, fd := |h.saved|, h.saved[k].target;
    var i :| 0 <= i < n && h.saved[i].copy == Some(fd) && !TargetIn(h.saved, i + 1, n, fd);
    assert Entry(h, origin, i);
  }

  /** With the targets that nobody needs closed, a target is closed when its turn comes. */
  lemma TargetGone(h: Held, origin: Table, now: Table, k: nat)
    requires Consistent(h, origin) && k < |h.saved|
    requires OthersClosed(h.saved, now)
    ensures h.saved[k].target !in ReplayFrom(h.saved, now, k + 1)
  {
    hide Consistent;
    var n, fd := |h.saved|, h.saved[k].target;
    NoOtherEntry(h, origin, k, k + 1, n);
    if Needed(h.saved, fd) {
      NeededLater(h, origin, k);
    }
    ReplayKeeps(h.saved, now, k + 1, n, fd);
  }

  /** A body that closes the targets nobody needs. */
  function Closing(h: Held): Table {
    map fd | fd in h.table && !(IsSaved(h.saved, fd) && !Needed(h.saved, fd)) :: h.table[fd]
  }

  lemma OtherwiseLost(h: Held, origin: Table) returns (fd: nat)
    requires Consistent(h, origin) && !CopiesHold(h)
    ensures IsSaved(h.saved, fd) && !IsBack(origin, Replay(h.saved, Closing(h)), fd)
    ensures Spares(h, Closing(h))
  {
    var n, now := |h.saved|, Closing(h);
    var k :| 0 <= k < n && Reused(h.saved, k) && !CopyHolds(h, k);
    var c := h.saved[k].copy.value;
    assert Entry(h, origin, k);
    var i :| 0 <= i < k && h.saved[i].target == c;
    NoOtherEntry(h, origin, i, k + 1, n);
    assert Needed(h.saved, c);
    ReplayKeeps(h.saved, now, k + 1, n, c);
    fd := LostCopyShows(h, origin, now, k);
  }

  /** The exact condition: the targets come back after every body that leaves the needed copies
      alone if and only if the copies hold. */
  lemma RestoresExactly(h: Held, origin: Table)
    requires Consistent(h, origin)
    ensures CopiesHold(h)
       <==> forall now: Table :: Spares(h, now) ==> Restored(h.saved, origin, now, Replay(h.saved, now))
  {
    if CopiesHold(h) {
      forall now: Table | Spares(h, now) ensures Restored(h.saved, origin, now, Replay(h.saved, now)) {
        CopiesHoldRestores(h, origin, now);
      }
    } else {
      var fd := OtherwiseLost(h, origin);
      assert !Restored(h.saved, origin, Closing(h), Replay(h.saved, Closing(h)));
    }
  }

  /** So for every list of redirections, whatever its targets and sources. */
  lemma ListRestoresExactly(origin: Table, rs: seq<Redirection>, ds: seq<Description>)
    requires |ds| == |rs| && (forall r | r in rs :: Valid(r)) && Run(origin, rs, ds).Some?
    ensures var h := Run(origin, rs, ds).value;
            (CopiesHold(h)
             <==> forall now: Table :: Spares(h, now) ==> Restored(h.saved, origin, now, Replay(h.saved, now)))
  {
    RunIsConsistent(origin, rs, ds);
    RestoresExactly(Run(origin, rs, ds).value, origin);
  }
}
