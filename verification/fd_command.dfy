/** A command with redirections run inside the shell (src/exec/command.rs, redirection.rs):
    apply the list, run the body, drop the guard. */
module FdCommand {
  import opened Wrappers
  import opened FdKernel
  import opened FdRedirection
  import opened FdGuard

  // ----- Which lists keep their copies -----

  /** The number was a target before it was chosen for a copy. */
  predicate HoldsReusedCopy(saved: seq<Saved>, fd: nat) {
    exists k :: 0 <= k < |saved| && Reused(saved, k) && saved[k].copy == Some(fd)
  }

  /** No redirection has as its target a number that was a target before, was closed, was chosen
      for a copy, and is now redirected again. */
  predicate NoneReturns(origin: Table, rs: seq<Redirection>, ds: seq<Description>)
    requires |ds| == |rs| && forall r | r in rs :: Valid(r)
  {
    rs == [] ||
    var n := |rs| - 1;
    assert forall r | r in rs[..n] :: r in rs;
    && NoneReturns(origin, rs[..n], ds[..n])
    && var before := Run(origin, rs[..n], ds[..n]);
       before.Some? ==> !HoldsReusedCopy(Saving(before.value, rs[n].fd).saved, rs[n].fd)
  }

  lemma NoneReturnsStep(origin: Table, rs: seq<Redirection>, ds: seq<Description>, n: nat)
    requires n < |rs| && |rs| == |ds| && (forall r | r in rs :: Valid(r)) && NoneReturns(origin, rs, ds)
    ensures forall r | r in rs[..n] :: Valid(r)
    ensures NoneReturns(origin, rs[..n], ds[..n])
  {
    assert forall r | r in rs[..n] :: r in rs;
    var m := |rs| - 1;
    if n < m {
      assert forall r | r in rs[..m] :: r in rs;
      assert rs[..m][..n] == rs[..n] && ds[..m][..n] == ds[..n];
      NoneReturnsStep(origin, rs[..m], ds[..m], n);
    }
  }

  lemma SavingKeepsCopies(h: Held, origin: Table, fd: nat)
    requires Consistent(h, origin) && CopiesHold(h)
    ensures Consistent(Saving(h, fd), origin) && CopiesHold(Saving(h, fd))
  {
    SavingIsConsistent(h, origin, fd);
    if !IsSaved(h.saved, fd) {
      var s := Saving(h, fd);
      Extended(h.saved, s.saved[|h.saved|]);
      forall k | 0 <= k < |s.saved| && Reused(s.saved, k) ensures CopyHolds(s, k) {
        if k < |h.saved| {
          assert CopyHolds(h, k) && Entry(h, origin, k);
        }
      }
    }
  }

  /** The copies of a list in which no number returns hold. */
  lemma {:induction false} NoneReturnsKeepsCopies(origin: Table, rs: seq<Redirection>, ds: seq<Description>)
    requires |ds| == |rs| && (forall r | r in rs :: Valid(r)) && NoneReturns(origin, rs, ds)
    requires Run(origin, rs, ds).Some?
    ensures CopiesHold(Run(origin, rs, ds).value)
  {
    if rs != [] {
      var n := |rs| - 1;
      assert forall r | r in rs[..n] :: r in rs;
      NoneReturnsKeepsCopies(origin, rs[..n], ds[..n]);
      RunIsConsistent(origin, rs[..n], ds[..n]);
      var h := Run(origin, rs[..n], ds[..n]).value;
      SavingKeepsCopies(h, origin, rs[n].fd);
      var s := Saving(h, rs[n].fd);
      RedirectedChanges(s.table, rs[n], ds[n]);
      var after := Step(h, rs[n], ds[n]).value;
      forall k | 0 <= k < |s.saved| && Reused(s.saved, k) ensures CopyHolds(after, k) {
        assert CopyHolds(s, k);
        assert Same(s.table, after.table, s.saved[k].copy.value);
      }
    }
  }

  lemma {:induction false} RunSaves(origin: Table, rs: seq<Redirection>, ds: seq<Description>)
    requires |ds| == |rs| && (forall r | r in rs :: Valid(r)) && Run(origin, rs, ds).Some?
    ensures forall fd: nat :: IsSaved(Run(origin, rs, ds).value.saved, fd) <==> fd in Targets(rs)
  {
    if rs != [] {
      var n := |rs| - 1;
      assert forall r | r in rs[..n] :: r in rs;
      RunSaves(origin, rs[..n], ds[..n]);
      var h := Run(origin, rs[..n], ds[..n]).value;
      SavingSaves(h, rs[n].fd);
      TargetsGrow(rs, n);
      assert rs[..n + 1] == rs;
    }
  }

  lemma SavingSaves(h: Held, fd: nat)
    ensures forall x: nat :: IsSaved(Saving(h, fd).saved, x) <==> IsSaved(h.saved, x) || x == fd
  {
    if !IsSaved(h.saved, fd) {
      Extended(h.saved, Saving(h, fd).saved[|h.saved|]);
    }
  }

  lemma TargetsGrow(rs: seq<Redirection>, n: nat)
    requires n < |rs|
    ensures Targets(rs[..n + 1]) == Targets(rs[..n]) + {rs[n].fd}
    ensures Targets(rs[..n + 1]) <= Targets(rs)
  {
    assert rs[..n + 1] == rs[..n] + [rs[n]];
    assert rs[n] in rs[..n + 1];
    assert forall r :: r in rs[..n + 1] <==> r in rs[..n] || r == rs[n];
    assert forall r | r in rs[..n + 1] :: r in rs;
  }

  predicate NamedOnce(rs: seq<Redirection>) {
    forall i, j :: 0 <= i < j < |rs| ==> rs[i].fd != rs[j].fd
  }

  /** In a list that names no target twice none returns, whatever the numbers are. */
  lemma {:induction false} OnceEachNeverReturns(origin: Table, rs: seq<Redirection>, ds: seq<Description>)
    requires |ds| == |rs| && forall r | r in rs :: Valid(r)
    requires NamedOnce(rs)
    ensures NoneReturns(origin, rs, ds)
  {
    if rs != [] {
      var n := |rs| - 1;
      assert forall r | r in rs[..n] :: r in rs;
      OnceEachNeverReturns(origin, rs[..n], ds[..n]);
      var before := Run(origin, rs[..n], ds[..n]);
      if before.Some? {
        var h, fd := before.value, rs[n].fd;
        RunSaves(origin, rs[..n], ds[..n]);
        assert !IsSaved(h.saved, fd);
        var s := Saving(h, fd);
        Extended(h.saved, s.saved[|h.saved|]);
        forall k | 0 <= k < |s.saved| && Reused(s.saved, k) ensures s.saved[k].copy != Some(fd) {
          assert k < |h.saved| ==> Reused(h.saved, k);
          assert TargetBelow(h.saved, k, fd) ==> IsSaved(h.saved, fd);
        }
      }
    }
  }

  lemma CopiesArePrivate(h: Held, origin: Table)
    requires Consistent(h, origin)
    ensures forall k :: 0 <= k < |h.saved| && h.saved[k].copy.Some? ==> h.saved[k].copy.value >= FIRST_PRIVATE
  {
    forall k | 0 <= k < |h.saved| && h.saved[k].copy.Some? ensures h.saved[k].copy.value >= FIRST_PRIVATE {
      assert Entry(h, origin, k);
    }
  }

  /** Nor does any when every target is below 10, whatever the sources are. */
  lemma {:induction false} LowTargetsNeverReturn(origin: Table, rs: seq<Redirection>, ds: seq<Description>)
    requires |ds| == |rs| && (forall r | r in rs :: Valid(r)) && LowTargets(rs)
    ensures NoneReturns(origin, rs, ds)
  {
    hide Consistent, Reused;
    if rs != [] {
      var n := |rs| - 1;
      assert forall r | r in rs[..n] :: r in rs;
      LowTargetsNeverReturn(origin, rs[..n], ds[..n]);
      assert rs[n] in rs;
      var before := Run(origin, rs[..n], ds[..n]);
      if before.Some? {
        RunIsConsistent(origin, rs[..n], ds[..n]);
        SavingIsConsistent(before.value, origin, rs[n].fd);
        var s := Saving(before.value, rs[n].fd);
        CopiesArePrivate(s, origin);
      }
    }
  }

  predicate LowTargets(rs: seq<Redirection>) {
    forall r | r in rs :: r.fd < FIRST_PRIVATE
  }

  lemma RunLast(origin: Table, rs: seq<Redirection>, ds: seq<Description>)
    requires 0 < |rs| == |ds| && forall r | r in rs :: Valid(r)
    ensures Valid(rs[|rs| - 1])
    ensures forall r | r in rs[..|rs| - 1] :: Valid(r)
    ensures Run(origin, rs, ds)
         == (var before := Run(origin, rs[..|rs| - 1], ds[..|rs| - 1]);
             if before.None? then None else Step(before.value, rs[|rs| - 1], ds[|rs| - 1]))
  {
    assert forall r | r in rs[..|rs| - 1] :: r in rs;
  }

  /** Once a reused copy is lost, only another redirection of its number can mend it. */
  lemma {:induction false} LostStaysLost(origin: Table, rs: seq<Redirection>, ds: seq<Description>, n: nat, h: Held, k: nat)
    requires n <= |rs| == |ds| && forall r | r in rs :: Valid(r)
    requires forall r | r in rs[..n] :: Valid(r)
    requires Run(origin, rs[..n], ds[..n]) == Some(h)
    requires k < |h.saved| && Reused(h.saved, k) && !CopyHolds(h, k)
    requires forall m :: n <= m < |rs| ==> h.saved[k].copy != Some(rs[m].fd)
    requires Run(origin, rs, ds).Some?
    ensures var after := Run(origin, rs, ds).value;
            && !CopiesHold(after)
            && k < |after.saved| && Reused(after.saved, k) && after.saved[k] == h.saved[k] && !CopyHolds(after, k)
  {
    hide Reused, CopyHolds, CopiesHold, Step, Run, Valid;
    if n == |rs| {
      assert rs[..n] == rs && ds[..n] == ds;
    } else {
      var last := |rs| - 1;
      RunLast(origin, rs, ds);
      assert rs[..last][..n] == rs[..n] && ds[..last][..n] == ds[..n];
      LostStaysLost(origin, rs[..last], ds[..last], n, h, k);
      LostStep(Run(origin, rs[..last], ds[..last]).value, rs[last], ds[last], k);
    }
    OneIsEnough(Run(origin, rs, ds).value, k);
  }

  lemma OneIsEnough(h: Held, k: nat)
    requires k < |h.saved| == |h.was| && Reused(h.saved, k) && !CopyHolds(h, k)
    ensures !CopiesHold(h)
  {
  }

  lemma LostStep(h: Held, r: Redirection, d: Description, k: nat)
    requires k < |h.saved| == |h.was| && Reused(h.saved, k) && !CopyHolds(h, k)
    requires Valid(r) && h.saved[k].copy != Some(r.fd) && Step(h, r, d).Some?
    ensures var after := Step(h, r, d).value;
            && k < |after.saved| == |after.was| && Reused(after.saved, k)
            && after.saved[k] == h.saved[k] && !CopyHolds(after, k)
  {
    var s, c := Saving(h, r.fd), h.saved[k].copy.value;
    if !IsSaved(h.saved, r.fd) {
      Extended(h.saved, s.saved[|h.saved|]);
    }
    RedirectedChanges(s.table, r, d);
    var after := Step(h, r, d).value;
    assert Same(s.table, after.table, c);
    if DescOf(h.table, c) == h.was[k] {
      var m :| k < m < |h.saved| && h.saved[m].copy == h.saved[k].copy;
      assert after.saved[m].copy == after.saved[k].copy;
    } else if c !in h.table && c in s.table {
      assert after.saved[|h.saved|].copy == after.saved[k].copy;
    }
  }

  // ----- What the command sees -----

  /** The numbers where copies are, and one more if the target `fd` is saved now. */
  function Lent(held: set<nat>, h: Held, fd: nat): set<nat> {
    if !IsSaved(h.saved, fd) && fd in h.table then held + {LowestFree(h.table, FIRST_PRIVATE)} else held
  }

  /** The numbers that hold copies after a list: chosen for one and not redirected since. */
  function CopiesAt(origin: Table, rs: seq<Redirection>, ds: seq<Description>): set<nat>
    requires |ds| == |rs| && forall r | r in rs :: Valid(r)
  {
    if rs == [] then {}
    else
      var n := |rs| - 1;
      assert forall r | r in rs[..n] :: r in rs;
      match Run(origin, rs[..n], ds[..n])
      case None => {}
      case Some(h) => Lent(CopiesAt(origin, rs[..n], ds[..n]), h, rs[n].fd) - {rs[n].fd}
  }

  /** The n-th redirection, if it is reached, does not copy a number that holds a copy. */
  predicate SourceIsFree(origin: Table, rs: seq<Redirection>, ds: seq<Description>, n: nat)
    requires n < |rs| == |ds| && forall r | r in rs :: Valid(r)
  {
    assert rs[n] in rs && forall r | r in rs[..n] :: r in rs;
    var before := Run(origin, rs[..n], ds[..n]);
    before.Some? && EffectOf(rs[n]).Copy? ==>
      EffectOf(rs[n]).source !in Lent(CopiesAt(origin, rs[..n], ds[..n]), before.value, rs[n].fd)
  }

  /** The tables are the same, but for copies, which are open in the first one only. */
  ghost predicate SameButCopies(table: Table, meant: Table, held: set<nat>) {
    forall fd: nat :: if fd in held then fd in table && fd !in meant else Same(table, meant, fd)
  }

  /** After n redirections the shell has what they mean, or both have failed. */
  ghost predicate MeansAt(origin: Table, rs: seq<Redirection>, ds: seq<Description>, n: nat)
    requires n <= |rs| == |ds| && forall r | r in rs :: Valid(r)
  {
    assert forall r | r in rs[..n] :: r in rs;
    var h, meant := Run(origin, rs[..n], ds[..n]), Meaning(origin, rs[..n], ds[..n]);
    && (h.Some? <==> meant.Some?)
    && (h.Some? ==> SameButCopies(h.value.table, meant.value, CopiesAt(origin, rs[..n], ds[..n])))
  }

  lemma StepMeans(h: Held, meant: Table, held: set<nat>, r: Redirection, d: Description)
    requires Valid(r) && SameButCopies(h.table, meant, held)
    ensures var free := EffectOf(r).Copy? ==> EffectOf(r).source !in Lent(held, h, r.fd);
            if free then
              && (Step(h, r, d).Some? <==> Redirected(meant, r, d).Some?)
              && (Step(h, r, d).Some? ==>
                    SameButCopies(Step(h, r, d).value.table, Redirected(meant, r, d).value, Lent(held, h, r.fd) - {r.fd}))
            else Step(h, r, d).Some? && Redirected(meant, r, d).None?
  {
    var s := Saving(h, r.fd);
    assert SameButCopies(s.table, meant, Lent(held, h, r.fd));
    match EffectOf(r)
    case Copy(source) =>
      assert source in Lent(held, h, r.fd) || Same(s.table, meant, source);
    case _ =>
  }

  lemma MeansStep(origin: Table, rs: seq<Redirection>, ds: seq<Description>, n: nat)
    requires n < |rs| == |ds| && forall r | r in rs :: Valid(r)
    requires MeansAt(origin, rs, ds, n)
    ensures SourceIsFree(origin, rs, ds, n) <==> MeansAt(origin, rs, ds, n + 1)
  {
    hide Run, Meaning, Step, Redirected, Lent, EffectOf, Valid;
    RunStep(origin, rs, ds, n);
    MeaningStep(origin, rs, ds, n);
    assert rs[..n + 1][..n] == rs[..n] && ds[..n + 1][..n] == ds[..n];
    var h := Run(origin, rs[..n], ds[..n]);
    if h.Some? {
      StepMeans(h.value, Meaning(origin, rs[..n], ds[..n]).value, CopiesAt(origin, rs[..n], ds[..n]), rs[n], ds[n]);
    }
  }

  lemma {:induction false} FreeSourcesAgree(origin: Table, rs: seq<Redirection>, ds: seq<Description>, n: nat)
    requires n <= |rs| == |ds| && forall r | r in rs :: Valid(r)
    requires forall k | 0 <= k < n :: SourceIsFree(origin, rs, ds, k)
    ensures MeansAt(origin, rs, ds, n)
  {
    hide SourceIsFree;
    if n > 0 {
      FreeSourcesAgree(origin, rs, ds, n - 1);
      MeansStep(origin, rs, ds, n - 1);
    }
  }

  /** The exact condition: the shell has the left-to-right meaning after every prefix of the list,
      copies aside, if and only if no source is a number that holds a copy at that moment. */
  lemma RunMeansExactly(origin: Table, rs: seq<Redirection>, ds: seq<Description>)
    requires |rs| == |ds| && forall r | r in rs :: Valid(r)
    ensures (forall n | 0 <= n < |rs| :: SourceIsFree(origin, rs, ds, n))
       <==> forall n | 0 <= n <= |rs| :: MeansAt(origin, rs, ds, n)
  {
    hide SourceIsFree, MeansAt;
    if forall n | 0 <= n < |rs| :: SourceIsFree(origin, rs, ds, n) {
      forall n | 0 <= n <= |rs| ensures MeansAt(origin, rs, ds, n) {
        FreeSourcesAgree(origin, rs, ds, n);
      }
    }
    if forall n | 0 <= n <= |rs| :: MeansAt(origin, rs, ds, n) {
      forall n | 0 <= n < |rs| ensures SourceIsFree(origin, rs, ds, n) {
        MeansStep(origin, rs, ds, n);
      }
    }
  }

  /** Copies are never below 10, so lists whose sources are below 10 have their meaning. */
  lemma {:induction false} CopiesAreHigh(origin: Table, rs: seq<Redirection>, ds: seq<Description>)
    requires |rs| == |ds| && forall r | r in rs :: Valid(r)
    ensures forall fd :: fd in CopiesAt(origin, rs, ds) ==> fd >= FIRST_PRIVATE
  {
    if rs != [] {
      var n := |rs| - 1;
      assert forall r | r in rs[..n] :: r in rs;
      CopiesAreHigh(origin, rs[..n], ds[..n]);
    }
  }

  /** Copies are open and marked close-on-exec. */
  lemma {:induction false} CopiesAreMarked(origin: Table, rs: seq<Redirection>, ds: seq<Description>)
    requires |rs| == |ds| && (forall r | r in rs :: Valid(r)) && Run(origin, rs, ds).Some?
    ensures forall fd :: fd in CopiesAt(origin, rs, ds) ==>
              fd in Run(origin, rs, ds).value.table && Run(origin, rs, ds).value.table[fd].cloexec
  {
    if rs != [] {
      var n := |rs| - 1;
      assert forall r | r in rs[..n] :: r in rs;
      CopiesAreMarked(origin, rs[..n], ds[..n]);
      var h := Run(origin, rs[..n], ds[..n]).value;
      RedirectedChanges(Saving(h, rs[n].fd).table, rs[n], ds[n]);
    }
  }

  lemma LowSourcesMean(origin: Table, rs: seq<Redirection>, ds: seq<Description>, n: nat)
    requires n <= |rs| == |ds| && forall r | r in rs :: Valid(r)
    requires forall r | r in rs :: EffectOf(r).Copy? ==> EffectOf(r).source < FIRST_PRIVATE
    ensures MeansAt(origin, rs, ds, n)
  {
    forall k | 0 <= k < |rs| ensures SourceIsFree(origin, rs, ds, k) {
      assert rs[k] in rs && forall r | r in rs[..k] :: r in rs;
      CopiesAreHigh(origin, rs[..k], ds[..k]);
    }
    FreeSourcesAgree(origin, rs, ds, n);
  }

  // ----- Applying a list -----

  /** A list that stopped: as many redirections as `ds` has were applied, the next target may
      have been saved, and its open may have left a here-document's pipe. */
  ghost predicate Stopped(origin: Table, rs: seq<Redirection>, ds: seq<Description>, h: Held, failed: Table)
    requires forall r | r in rs :: Valid(r)
  {
    |ds| < |rs| &&
    var n := |ds|;
    assert forall r | r in rs[..n] :: r in rs;
    var before := Run(origin, rs[..n], ds);
    && before.Some?
    && (h == before.value || h == Saving(before.value, rs[n].fd))
    && (failed == h.table || (rs[n].kind.HereDoc? && h == Saving(before.value, rs[n].fd) && PipeLeft(h.table, failed)))
  }

  /** One redirection of a list: its target is saved unless it has been, and it is applied. It
      fails only if it copies a closed descriptor, is refused, or something goes wrong. */
  method SaveAndApply(p: Process, saved: seq<Saved>, r: Redirection, noclobber: bool, ghost h: Held)
    returns (res: Result<(), Errno>, more: seq<Saved>, ghost d: Description, ghost after: Held)
    requires Valid(r) && h.saved == saved && h.table == p.table
    modifies p
    ensures res.Ok? <==>
              && Redirected(Saving(h, r.fd).table, r, Inherited(0)).Some?
              && Admitted(r, noclobber, old(p.files)) && FaultFree(p.faults, old(p.clock), p.clock)
    ensures res.Ok? ==>
              && OpensAs(r, noclobber, old(p.files), d)
              && Step(h, r, d) == Some(after) && after.table == p.table && after.saved == more
    ensures res.Err? ==>
              || (after == h && p.table == h.table && more == saved)
              || (&& after == Saving(h, r.fd) && more == after.saved
                  && (p.table == after.table || (r.kind.HereDoc? && PipeLeft(after.table, p.table))))
    ensures res == Err(BadDescriptor) ==> after == Saving(h, r.fd) && Redirected(after.table, r, Inherited(0)).None?
    ensures p.files == (if res.Ok? then Creates(r, noclobber, old(p.files)) else old(p.files)) && old(p.clock) <= p.clock
  {
    hide Redirected, OpensAs, Admitted, FaultFree, Creates;
    more, after, d := saved, h, Inherited(0);
    FaultsNone(p.faults, p.clock);
    if !IsSaved(saved, r.fd) {
      var original := p.DuplicateToNew(r.fd);
      OneCall(p.faults, old(p.clock), p.clock);
      if original.Err? && original.error != BadDescriptor {
        return Err(original.error), more, d, after;
      }
      more := saved + [Saved(r.fd, if original.Ok? then Some(original.value) else None)];
    }
    after := Saving(h, r.fd);
    ghost var tick := p.clock;
    res, d := ApplyShellRedirection(p, r, noclobber);
    FaultsJoin(p.faults, old(p.clock), tick, p.clock);
    NoneForAny(after.table, r, d);
    if res.Ok? {
      after := after.(table := p.table);
    }
  }

  /** Applies a list of redirections; on failure the guard is dropped before returning. */
  method ApplyShellRedirections(p: Process, rs: seq<Redirection>, noclobber: bool)
    returns (res: Result<Guard, Errno>, ghost ds: seq<Description>, ghost h: Held, ghost failed: Table)
    requires forall r | r in rs :: Valid(r)
    modifies p
    ensures Opened(rs, noclobber, old(p.files), ds)
    ensures res.Ok? ==>
              && |ds| == |rs| && Run(old(p.table), rs, ds) == Some(h)
              && h.saved == SavedOf(res.value) && h.table == p.table
              && FaultFree(p.faults, old(p.clock), p.clock)
    ensures res.Err? ==> Stopped(old(p.table), rs, ds, h, failed) && p.table == Replay(h.saved, failed)
    ensures res.Err? ==> |ds| < |rs| && (StopReason(rs, noclobber, old(p.files), ds, h) || !FaultFree(p.faults, old(p.clock), p.clock))
    ensures res == Err(BadDescriptor) ==> Redirected(h.table, rs[|ds|], Inherited(0)).None?
    ensures p.files == FilesAt(rs, noclobber, old(p.files), |ds|) && old(p.clock) <= p.clock
  {
    hide Run, Redirected, OpensAs, Replay, Admitted, FaultFree, FilesAt, Creates, Opened, Step, Stopped, PipeLeft, Saving;
    ghost var origin, files := p.table, p.files;
    ds, h, failed := [], Held([], [], origin), origin;
    NothingYet(rs, noclobber, files, origin);
    FaultsNone(p.faults, p.clock);
    if |rs| == 0 {
      return Ok(Empty), ds, h, failed;
    }
    var saved: seq<Saved> := [];
    for n := 0 to |rs|
      invariant |ds| == n && Opened(rs, noclobber, files, ds)
      invariant forall r | r in rs[..n] :: Valid(r)
      invariant Run(origin, rs[..n], ds) == Some(h)
      invariant h.saved == saved && h.table == p.table
      invariant p.files == FilesAt(rs, noclobber, files, n)
      invariant old(p.clock) <= p.clock && FaultFree(p.faults, old(p.clock), p.clock)
    {
      var r := rs[n];
      assert r in rs;
      assert forall r | r in rs[..n + 1] :: r in rs;
      NextFiles(rs, noclobber, files, n);
      ghost var before, tick := h, p.clock;
      var one;
      ghost var d;
      one, saved, d, h := SaveAndApply(p, saved, r, noclobber, before);
      FaultsJoin(p.faults, old(p.clock), tick, p.clock);
      if one.Err? {
        failed := p.table;
        StopsHere(origin, rs, ds, before, h, failed);
        DropGuard(p, Holding(saved));
        return Err(one.error), ds, h, failed;
      }
      OneMore(origin, rs, ds, n, before, d);
      OneMoreOpened(rs, noclobber, files, ds, d);
      ds := ds + [d];
    }
    assert rs[..|rs|] == rs;
    return Ok(Holding(saved)), ds, h, failed;
  }

  /** The redirection reached copies a closed descriptor, or is refused. */
  predicate StopReason(rs: seq<Redirection>, noclobber: bool, files: Files, ds: seq<Description>, h: Held)
    requires |ds| < |rs| && forall r | r in rs :: Valid(r)
  {
    assert rs[|ds|] in rs;
    || Redirected(Saving(h, rs[|ds|].fd).table, rs[|ds|], Inherited(0)).None?
    || !Admitted(rs[|ds|], noclobber, FilesAt(rs, noclobber, files, |ds|))
  }

  lemma NothingYet(rs: seq<Redirection>, noclobber: bool, files: Files, origin: Table)
    requires forall r | r in rs :: Valid(r)
    ensures Opened(rs, noclobber, files, []) && FilesAt(rs, noclobber, files, 0) == files
    ensures forall r | r in rs[..0] :: Valid(r)
    ensures Run(origin, rs[..0], []) == Some(Held([], [], origin)) && Run(origin, [], []) == Some(Held([], [], origin))
  {
  }

  lemma StopsHere(origin: Table, rs: seq<Redirection>, ds: seq<Description>, before: Held, h: Held, failed: Table)
    requires |ds| < |rs| && (forall r | r in rs :: Valid(r))
    requires forall r | r in rs[..|ds|] :: Valid(r)
    requires Run(origin, rs[..|ds|], ds) == Some(before)
    requires || (h == before && failed == h.table)
             || (&& h == Saving(before, rs[|ds|].fd)
                 && (failed == h.table || (rs[|ds|].kind.HereDoc? && PipeLeft(h.table, failed))))
    ensures Stopped(origin, rs, ds, h, failed)
    ensures Saving(h, rs[|ds|].fd) == Saving(before, rs[|ds|].fd)
  {
    SavingSaves(before, rs[|ds|].fd);
  }

  lemma OneMoreOpened(rs: seq<Redirection>, noclobber: bool, files: Files, ds: seq<Description>, d: Description)
    requires |ds| < |rs| && Opened(rs, noclobber, files, ds)
    requires var now := FilesAt(rs, noclobber, files, |ds|);
             Admitted(rs[|ds|], noclobber, now) && OpensAs(rs[|ds|], noclobber, now, d)
    ensures Opened(rs, noclobber, files, ds + [d])
  {
  }

  lemma NextFiles(rs: seq<Redirection>, noclobber: bool, files: Files, n: nat)
    requires n < |rs|
    ensures FilesAt(rs, noclobber, files, n + 1) == Creates(rs[n], noclobber, FilesAt(rs, noclobber, files, n))
  {
  }

  /** A call that makes at most one entry of the tape. */
  lemma OneCall(faults: Faults, at: nat, to: nat)
    requires at <= to <= at + 1
    ensures FaultFree(faults, at, to) <==> (to == at + 1 ==> faults(at) == NoFault)
  {
  }

  lemma NoneForAny(table: Table, r: Redirection, d: Description)
    requires Valid(r)
    ensures Redirected(table, r, d).None? <==> Redirected(table, r, Inherited(0)).None?
  {
  }

  lemma OneMore(origin: Table, rs: seq<Redirection>, ds: seq<Description>, n: nat, before: Held, d: Description)
    requires n < |rs| && |ds| == n && forall r | r in rs :: Valid(r)
    requires forall r | r in rs[..n] :: Valid(r)
    requires Run(origin, rs[..n], ds) == Some(before)
    ensures Valid(rs[n])
    ensures forall r | r in rs[..n + 1] :: Valid(r)
    ensures Run(origin, rs[..n + 1], ds + [d]) == Step(before, rs[n], d)
  {
    assert forall r | r in rs[..n + 1] :: r in rs;
    assert rs[..n + 1][..n] == rs[..n] && (ds + [d])[..n] == ds;
    assert rs[n] in rs;
  }

  // ----- A redirected command: apply, run, drop -----

  /** The table with close-on-exec cleared on some descriptors. */
  function Cleared(table: Table, fds: set<nat>): Table {
    map fd | fd in table :: if fd in fds then Slot(table[fd].desc, false) else table[fd]
  }

  /** Restoring gives back the very same table exactly when no redirected descriptor was
      open with close-on-exec set. */
  lemma ClearedIsUnchanged(table: Table, fds: set<nat>)
    ensures Cleared(table, fds) == table <==> forall fd :: fd in fds && fd in table ==> !table[fd].cloexec
  {
    forall fd | fd in table
      ensures Cleared(table, fds)[fd] == table[fd] <==> (fd in fds ==> !table[fd].cloexec)
    {
    }
    if forall fd :: fd in fds && fd in table ==> !table[fd].cloexec {
      assert Cleared(table, fds) == table;
    }
  }

  /** Every target is back at its original description, or closed as it was. */
  predicate TargetsRestored(rs: seq<Redirection>, origin: Table, after: Table) {
    forall fd | fd in Targets(rs) :: IsBack(origin, after, fd)
  }

  ghost predicate SamePrivate(a: Table, b: Table) {
    forall fd: nat | fd >= FIRST_PRIVATE :: Same(a, b, fd)
  }

  /** After a failure and the drop of the guard: the targets reached are back, and everything
      else is as it was, but for the ends of an abandoned pipe, on numbers not yet reached. */
  ghost predicate Recovered(rs: seq<Redirection>, ds: seq<Description>, origin: Table, h: Held, failed: Table, after: Table)
    requires |ds| < |rs|
  {
    && (forall fd | fd in Targets(rs[..|ds|]) :: IsBack(origin, after, fd))
    && forall fd: nat ::
         if IsSaved(h.saved, fd) then fd in Targets(rs[..|ds| + 1]) && IsBack(origin, after, fd)
         else if Left(h, failed, fd) then fd !in origin && Same(after, failed, fd)
         else Same(after, origin, fd)
  }

  /** An end of the abandoned pipe. */
  predicate Left(h: Held, failed: Table, fd: nat) {
    fd in failed && fd !in h.table
  }

  /** A body that leaves the private descriptors alone spares the copies. */
  lemma SparingPrivateIsEnough(h: Held, origin: Table, now: Table)
    requires Consistent(h, origin) && SamePrivate(h.table, now)
    ensures Spares(h, now)
  {
    forall fd: nat | Needed(h.saved, fd) ensures DescOf(now, fd) == DescOf(h.table, fd) {
      CopiesArePrivate(h, origin);
      assert Same(h.table, now, fd);
    }
  }

  /** What a restored table is in terms of the list. */
  lemma RestoredList(origin: Table, rs: seq<Redirection>, ds: seq<Description>, h: Held, now: Table, after: Table)
    requires |ds| == |rs| && (forall r | r in rs :: Valid(r)) && Run(origin, rs, ds) == Some(h)
    requires Restored(h.saved, origin, now, after)
    ensures TargetsRestored(rs, origin, after)
    ensures now == h.table ==> after == Cleared(origin, Targets(rs))
    ensures LowTargets(rs) && SamePrivate(h.table, now) ==> SamePrivate(origin, after)
  {
    RunIsConsistent(origin, rs, ds);
    RunSaves(origin, rs, ds);
    forall fd: nat
      ensures fd !in Targets(rs) && IsCopy(h.saved, fd) ==> Same(origin, after, fd)
      ensures fd !in Targets(rs) && Same(h.table, now, fd) ==> Same(origin, after, fd)
    {
      if fd !in Targets(rs) {
        FreeIsNoCopy(h, origin, fd);
      }
    }
    if now == h.table {
      forall fd: nat ensures Same(after, Cleared(origin, Targets(rs)), fd) {
        assert fd in Targets(rs) ==> IsBack(origin, after, fd);
        assert fd !in Targets(rs) ==> Same(origin, after, fd);
      }
      SameEverywhere(after, Cleared(origin, Targets(rs)));
    }
    if LowTargets(rs) && SamePrivate(h.table, now) {
      forall fd: nat | fd >= FIRST_PRIVATE ensures Same(origin, after, fd) {
        assert Same(h.table, now, fd);
      }
    }
  }

  lemma SameEverywhere(a: Table, b: Table)
    requires forall fd: nat :: Same(a, b, fd)
    ensures a == b
  {
    forall fd: nat ensures fd in a <==> fd in b {
      assert Same(a, b, fd);
    }
    forall fd | fd in a ensures a[fd] == b[fd] {
      assert Same(a, b, fd);
    }
  }

  /** The state in which a list stops is one of a run. */
  lemma StoppedIsConsistent(origin: Table, rs: seq<Redirection>, ds: seq<Description>, h: Held, failed: Table)
    requires (forall r | r in rs :: Valid(r)) && Stopped(origin, rs, ds, h, failed)
    ensures Consistent(h, origin)
    ensures LowTargets(rs) || NamedOnce(rs) ==> CopiesHold(h)
    ensures forall fd: nat :: IsSaved(h.saved, fd) ==> fd in Targets(rs[..|ds| + 1])
    ensures forall fd: nat :: fd in Targets(rs[..|ds|]) ==> IsSaved(h.saved, fd)
    ensures Extends(h.table, failed)
  {
    hide Consistent, CopiesHold;
    var n := |ds|;
    assert forall r | r in rs[..n] :: r in rs;
    assert rs[n] in rs;
    var before := Run(origin, rs[..n], ds).value;
    RunIsConsistent(origin, rs[..n], ds);
    SavingIsConsistent(before, origin, rs[n].fd);
    RunSaves(origin, rs[..n], ds);
    SavingSaves(before, rs[n].fd);
    TargetsGrow(rs, n);
    if LowTargets(rs) || NamedOnce(rs) {
      if LowTargets(rs) {
        LowTargetsNeverReturn(origin, rs[..n], ds);
      } else {
        OnceEachNeverReturns(origin, rs[..n], ds);
      }
      NoneReturnsKeepsCopies(origin, rs[..n], ds);
      SavingKeepsCopies(before, origin, rs[n].fd);
    }
  }

  lemma FailureRecovers(origin: Table, rs: seq<Redirection>, ds: seq<Description>, h: Held, failed: Table)
    requires (forall r | r in rs :: Valid(r)) && Stopped(origin, rs, ds, h, failed)
    requires CopiesHold(h)
    ensures Recovered(rs, ds, origin, h, failed, Replay(h.saved, failed))
  {
    StoppedIsConsistent(origin, rs, ds, h, failed);
    hide Stopped;
    forall fd: nat | Needed(h.saved, fd) ensures DescOf(failed, fd) == DescOf(h.table, fd) {
      NeededIsOpen(h, origin, fd);
    }
    CopiesHoldRestores(h, origin, failed);
    var after := Replay(h.saved, failed);
    forall fd: nat
      ensures if IsSaved(h.saved, fd) then IsBack(origin, after, fd)
              else if Left(h, failed, fd) then fd !in origin && Same(after, failed, fd)
              else Same(after, origin, fd)
    {
      if !IsSaved(h.saved, fd) {
        FreeIsNoCopy(h, origin, fd);
      }
    }
  }

  /** So the failed list has put every target back, reached or not, unless the abandoned pipe
      took the number of one not yet reached: never when the redirection that failed is no
      here-document. */
  lemma FailedTargetsAreBackExactly(origin: Table, rs: seq<Redirection>, ds: seq<Description>, h: Held, failed: Table)
    requires (forall r | r in rs :: Valid(r)) && Stopped(origin, rs, ds, h, failed)
    requires CopiesHold(h)
    ensures (forall fd | fd in Targets(rs) :: DescOf(Replay(h.saved, failed), fd) == DescOf(origin, fd))
       <==> forall fd | fd in Targets(rs) && Left(h, failed, fd) :: IsSaved(h.saved, fd)
    ensures !rs[|ds|].kind.HereDoc? ==> forall fd: nat :: !Left(h, failed, fd)
    ensures (forall fd: nat :: !Left(h, failed, fd)) ==>
              forall fd: nat :: DescOf(Replay(h.saved, failed), fd) == DescOf(origin, fd)
  {
    FailureRecovers(origin, rs, ds, h, failed);
    var after := Replay(h.saved, failed);
    forall fd: nat
      ensures DescOf(after, fd) == DescOf(origin, fd) <==> (Left(h, failed, fd) ==> IsSaved(h.saved, fd))
    {
      assert if IsSaved(h.saved, fd) then IsBack(origin, after, fd)
             else if Left(h, failed, fd) then fd !in origin && Same(after, failed, fd)
             else Same(after, origin, fd);
    }
  }

  /** `3<<E 4>f` with 0 to 2 open, when the body cannot be written: the pipe is read as 3 and
      written as 4; 3 was reached and is closed again, 4 was not and stays open. */
  lemma AbandonedPipeOnATarget(origin: Table, id: nat)
    requires origin.Keys == {0, 1, 2}
    ensures var rs := [Redirection(3, HereDoc, "E"), Redirection(4, Write, "f")];
            var h := Held([Saved(3, None)], [None], origin);
            var failed := origin[3 := Slot(ReadEnd(id), false)][4 := Slot(WriteEnd(id), false)];
            && Stopped(origin, rs, [], h, failed)
            && Replay(h.saved, failed) == origin[4 := Slot(WriteEnd(id), false)]
  {
    var h := Held([Saved(3, None)], [None], origin);
    var failed := origin[3 := Slot(ReadEnd(id), false)][4 := Slot(WriteEnd(id), false)];
    assert 3 !in origin && LowestFree(origin, 0) == 3;
    var half := origin[3 := Slot(ReadEnd(id), false)];
    assert 4 !in half && LowestFree(half, 0) == 4;
    assert failed == WithNewPipe(origin, id);
    assert Saving(Held([], [], origin), 3) == h;
    assert ReplayFrom(h.saved, failed, 1) == failed;
  }

  lemma NeededIsOpen(h: Held, origin: Table, fd: nat)
    requires Consistent(h, origin) && CopiesHold(h) && Needed(h.saved, fd)
    ensures fd in h.table
  {
    var k :| 0 <= k < |h.saved| && h.saved[k].copy == Some(fd) && !TargetIn(h.saved, k + 1, |h.saved|, fd);
    assert Entry(h, origin, k) && CopyIntact(h, k);
    assert IsSaved(h.saved, fd) ==> Reused(h.saved, k);
    assert Reused(h.saved, k) ==> CopyHolds(h, k);
  }

  /** `execute_redirected`: apply, run the body, drop the guard. */
  method ExecuteRedirected(p: Process, rs: seq<Redirection>, noclobber: bool, body: Table -> Table)
    returns (applied: bool, ghost h: Held, ghost ds: seq<Description>, ghost failed: Table)
    requires forall r | r in rs :: Valid(r)
    modifies p
    ensures Opened(rs, noclobber, old(p.files), ds)
    ensures applied ==> |ds| == |rs| && Run(old(p.table), rs, ds) == Some(h)
    ensures !applied ==>
              |ds| < |rs| && (StopReason(rs, noclobber, old(p.files), ds, h) || !FaultFree(p.faults, old(p.clock), p.clock))
    ensures |h.saved| == |h.was| && (LowTargets(rs) || NamedOnce(rs) ==> CopiesHold(h))
    ensures applied && CopiesHold(h) && Spares(h, body(h.table)) ==>
              && Restored(h.saved, old(p.table), body(h.table), p.table)
              && TargetsRestored(rs, old(p.table), p.table)
              && (body(h.table) == h.table ==> p.table == Cleared(old(p.table), Targets(rs)))
    ensures applied && SamePrivate(h.table, body(h.table)) ==> Spares(h, body(h.table))
    ensures applied && SamePrivate(h.table, body(h.table)) && LowTargets(rs) ==> SamePrivate(old(p.table), p.table)
    ensures !applied ==> Stopped(old(p.table), rs, ds, h, failed)
    ensures !applied && CopiesHold(h) ==> Recovered(rs, ds, old(p.table), h, failed, p.table)
  {
    hide Run, Stopped, CopiesHold, Restored, Recovered, SamePrivate, Spares, Consistent, LowTargets, NamedOnce, Opened, Replay, Cleared, StopReason, FaultFree,
         TargetsRestored;
    ghost var origin := p.table;
    var guard;
    guard, ds, h, failed := ApplyShellRedirections(p, rs, noclobber);
    if guard.Err? {
      StoppedIsConsistent(origin, rs, ds, h, failed);
      ConsistentIsEven(h, origin);
      if CopiesHold(h) {
        FailureRecovers(origin, rs, ds, h, failed);
      }
      return false, h, ds, failed;
    }
    p.table := body(p.table);
    DropGuard(p, guard.value);
    Dropped(origin, rs, ds, h, body(h.table));
    return true, h, ds, failed;
  }

  lemma ConsistentIsEven(h: Held, origin: Table)
    requires Consistent(h, origin)
    ensures |h.saved| == |h.was|
  {
  }

  lemma Dropped(origin: Table, rs: seq<Redirection>, ds: seq<Description>, h: Held, now: Table)
    requires |ds| == |rs| && (forall r | r in rs :: Valid(r)) && Run(origin, rs, ds) == Some(h)
    ensures |h.saved| == |h.was| && (LowTargets(rs) || NamedOnce(rs) ==> CopiesHold(h))
    ensures var after := Replay(h.saved, now);
            && (CopiesHold(h) && Spares(h, now) ==>
                  && Restored(h.saved, origin, now, after) && TargetsRestored(rs, origin, after)
                  && (now == h.table ==> after == Cleared(origin, Targets(rs))))
            && (SamePrivate(h.table, now) ==> Spares(h, now))
            && (SamePrivate(h.table, now) && LowTargets(rs) ==> SamePrivate(origin, after))
  {
    hide Run, CopiesHold, Restored, SamePrivate, Spares, Consistent, Replay, Cleared, LowTargets, NamedOnce, NoneReturns;
    RunIsConsistent(origin, rs, ds);
    ConsistentIsEven(h, origin);
    if LowTargets(rs) || NamedOnce(rs) {
      if LowTargets(rs) {
        LowTargetsNeverReturn(origin, rs, ds);
      } else {
        OnceEachNeverReturns(origin, rs, ds);
      }
      NoneReturnsKeepsCopies(origin, rs, ds);
    }
    if SamePrivate(h.table, now) {
      SparingPrivateIsEnough(h, origin, now);
    }
    if CopiesHold(h) && Spares(h, now) {
      CopiesHoldRestores(h, origin, now);
      RestoredList(origin, rs, ds, h, now, Replay(h.saved, now));
    }
  }

  // ----- A list that is not undone -----

  /** The two steps `12>&- 3>a`, with 0 to 3, 10 and 11 open: 12 is saved as closed, and is then
      chosen for the copy of 3. */
  lemma NumberChosenAgain(origin: Table, a: Description)
    requires origin.Keys == {0, 1, 2, 3, 10, 11}
    ensures var rs := [Redirection(12, DupOutput, "-"), Redirection(3, Write, "a")];
            Run(origin, rs, [a, a])
            == Some(Held([Saved(12, None), Saved(3, Some(12))], [None, Some(origin[3].desc)],
                         origin[12 := Slot(origin[3].desc, true)][3 := Slot(a, false)]))
  {
    var r0, r1 := Redirection(12, DupOutput, "-"), Redirection(3, Write, "a");
    assert [r0, r1][..1] == [r0] && [a, a][..1] == [a];
    assert [r0][..0] == [] && [a][..0] == [];
    assert 12 !in origin && LowestFree(origin, 10) == 12;
    var one := Step(Held([], [], origin), r0, a).value;
    assert one == Held([Saved(12, None)], [None], origin);
    assert Run(origin, [r0], [a]) == Some(one);
    assert !IsSaved(one.saved, 3);
    assert Saving(one, 3) == Held([Saved(12, None), Saved(3, Some(12))], [None, Some(origin[3].desc)],
                                  origin[12 := Slot(origin[3].desc, true)]);
    RunLast(origin, [r0, r1], [a, a]);
  }

  /** With `12>b` after them, undoing the list gives 3 the file b: 12 had been a target, was
      chosen for a copy, and is redirected again. */
  lemma ReturningNumberSpoilsTheGuard(origin: Table, a: Description, b: Description)
    requires origin.Keys == {0, 1, 2, 3, 10, 11}
    ensures var rs := [Redirection(12, DupOutput, "-"), Redirection(3, Write, "a"), Redirection(12, Write, "b")];
            var h := Run(origin, rs, [a, a, b]);
            && h.Some?
            && !NoneReturns(origin, rs, [a, a, b])
            && DescOf(Replay(h.value.saved, h.value.table), 3) == Some(b)
            && (CopiesHold(h.value) <==> b == origin[3].desc)
  {
    hide Run, NoneReturns;
    NumberChosenAgain(origin, a);
    var r0, r1, r2 := Redirection(12, DupOutput, "-"), Redirection(3, Write, "a"), Redirection(12, Write, "b");
    var rs, ds := [r0, r1, r2], [a, a, b];
    assert rs[..2] == [r0, r1] && ds[..2] == [a, a];
    var two := Run(origin, rs[..2], ds[..2]).value;
    RunLast(origin, rs, ds);
    assert two.saved[0].target == 12 && two.saved[1] == Saved(3, Some(12));
    assert Reused(two.saved, 1) && IsSaved(two.saved, 12);
    assert HoldsReusedCopy(two.saved, 12);
    if NoneReturns(origin, rs, ds) {
      NoneReturnsLast(origin, rs, ds);
    }
    var three := two.(table := two.table[12 := Slot(b, false)]);
    assert Run(origin, rs, ds) == Some(three);
    FileTakesItsPlace(three, b);
  }

  lemma NoneReturnsLast(origin: Table, rs: seq<Redirection>, ds: seq<Description>)
    requires 0 < |rs| == |ds| && (forall r | r in rs :: Valid(r)) && NoneReturns(origin, rs, ds)
    ensures forall r | r in rs[..|rs| - 1] :: Valid(r)
    ensures var before := Run(origin, rs[..|rs| - 1], ds[..|rs| - 1]);
            before.Some? ==> !HoldsReusedCopy(Saving(before.value, rs[|rs| - 1].fd).saved, rs[|rs| - 1].fd)
  {
    assert forall r | r in rs[..|rs| - 1] :: r in rs;
  }

  lemma FileTakesItsPlace(h: Held, b: Description)
    requires h.saved == [Saved(12, None), Saved(3, Some(12))] && |h.was| == 2 && DescOf(h.table, 12) == Some(b)
    ensures DescOf(Replay(h.saved, h.table), 3) == Some(b)
    ensures CopiesHold(h) <==> h.was[1] == Some(b)
  {
    assert ReplayFrom(h.saved, h.table, 2) == h.table;
    assert ReplayFrom(h.saved, h.table, 1) == h.table[3 := Slot(b, false)] - {12};
    assert h.saved[0].target == 12 && Reused(h.saved, 1);
    assert CopyHolds(h, 1) <==> h.was[1] == Some(b);
  }
}
