/** Redirections of a command that runs in a child (src/exec/redirection.rs): the parent opens
    the files and prepares actions, the child applies them. */
module FdChild {
  import opened Wrappers
  import opened FdKernel
  import opened FdRedirection
  import opened FdGuard
  import opened FdCommand
  import Decimal

  datatype ChildFdAction =
    | DupRawFd(fd: nat, targetFd: nat)
    | DupFd(sourceFd: int, targetFd: nat)
    | CloseFd(targetFd: nat)

  /** The action prepared for a redirection. */
  predicate ActionFor(r: Redirection, a: ChildFdAction)
    requires Valid(r)
  {
    match EffectOf(r)
    case Open => a.DupRawFd? && a.targetFd == r.fd
    case Copy(source) => a == DupFd(source, r.fd)
    case Unusable => a.DupFd? && a.sourceFd < 0 && a.targetFd == r.fd
    case Shut => a == CloseFd(r.fd)
  }

  /** A file is open on this number for one of the actions. */
  predicate IsRaw(actions: seq<ChildFdAction>, fd: nat) {
    exists k :: 0 <= k < |actions| && actions[k].DupRawFd? && actions[k].fd == fd
  }

  /** The parent has opened the files of `rs` on new descriptors and otherwise kept its table. */
  ghost predicate Prepared(rs: seq<Redirection>, ds: seq<Description>, actions: seq<ChildFdAction>,
                           origin: Table, now: Table)
  {
    && |ds| == |rs| == |actions|
    && (forall k :: 0 <= k < |rs| ==> Valid(rs[k]) && ActionFor(rs[k], actions[k]))
    && (forall k :: 0 <= k < |actions| && actions[k].DupRawFd? ==> RawHolds(actions[k], rs[k], ds[k], origin, now))
    && (forall j, k :: 0 <= j < k < |actions| && actions[j].DupRawFd? && actions[k].DupRawFd? ==>
          actions[j].fd != actions[k].fd)
    && (forall fd: nat :: fd in now <==> fd in origin || IsRaw(actions, fd))
    && (forall fd :: fd in origin ==> fd in now && now[fd] == origin[fd])
  }

  /** The raw number was free and holds the file, close-on-exec unless it is a here-document. */
  predicate RawHolds(a: ChildFdAction, r: Redirection, d: Description, origin: Table, now: Table)
    requires a.DupRawFd?
  {
    a.fd !in origin && a.fd in now && now[a.fd] == Slot(d, !r.kind.HereDoc?)
  }

  /** The files opened differ from each other and from what is open in `origin`. */
  ghost predicate OpenedNew(rs: seq<Redirection>, ds: seq<Description>, origin: Table)
    requires |ds| == |rs|
  {
    && (forall k, fd :: 0 <= k < |rs| && !IsDup(rs[k]) && fd in origin ==> origin[fd].desc != ds[k])
    && (forall j, k :: 0 <= j < k < |rs| && !IsDup(rs[j]) && !IsDup(rs[k]) ==> ds[j] != ds[k])
  }

  /** Everything in the table was created before the serial number `next`. */
  predicate CreatedBefore(table: Table, next: nat) {
    forall fd | fd in table :: SerialOf(table[fd].desc) < next
  }

  method PrepareRedirections(p: Process, rs: seq<Redirection>, noclobber: bool)
    returns (res: Result<seq<ChildFdAction>, Errno>, ghost ds: seq<Description>)
    requires forall r | r in rs :: Valid(r)
    modifies p
    ensures res.Ok? ==> Prepared(rs, ds, res.value, old(p.table), p.table)
    ensures res.Ok? && CreatedBefore(old(p.table), old(p.serial)) ==> OpenedNew(rs, ds, old(p.table))
    ensures Opened(rs, noclobber, old(p.files), ds) && p.files == FilesAt(rs, noclobber, old(p.files), |ds|)
    ensures res.Ok? ==> FaultFree(p.faults, old(p.clock), p.clock)
    ensures res.Err? ==>
              && Extends(old(p.table), p.table) && |ds| < |rs|
              && (!Admitted(rs[|ds|], noclobber, FilesAt(rs, noclobber, old(p.files), |ds|)) || !FaultFree(p.faults, old(p.clock), p.clock))
    ensures old(p.clock) <= p.clock
  {
    hide Prepared, OpensAs, Numbered, Admitted, FaultFree, FilesAt, Creates, Opened, OpenedNew, PipeLeft;
    ghost var origin, files := p.table, p.files;
    NothingYet(rs, noclobber, files, origin);
    NothingPrepared(rs, origin, p.serial);
    FaultsNone(p.faults, p.clock);
    ds := [];
    var actions: seq<ChildFdAction> := [];
    for n := 0 to |rs|
      invariant |ds| == n && Opened(rs, noclobber, files, ds) && p.files == FilesAt(rs, noclobber, files, n)
      invariant old(p.clock) <= p.clock && FaultFree(p.faults, old(p.clock), p.clock)
      invariant Prepared(rs[..n], ds, actions, origin, p.table)
      invariant old(p.serial) <= p.serial && Numbered(rs[..n], ds, old(p.serial), p.serial)
    {
      var r := rs[n];
      assert r in rs && rs[..n + 1] == rs[..n] + [r];
      ghost var now, next, tick := p.table, p.serial, p.clock;
      NextFiles(rs, noclobber, files, n);
      if IsDup(r) {
        DupOpensNothing(r, noclobber, p.files, Inherited(0));
      }
      PreparedExtends(rs[..n], ds, actions, origin, now);
      var a: ChildFdAction;
      ghost var d := Inherited(0);
      match EffectOf(r) {
        case Open =>
          var file;
          file, d := OpenFor(p, r, noclobber);
          FaultsJoin(p.faults, old(p.clock), tick, p.clock);
          if file.Err? {
            if PipeLeft(now, p.table) {
              PipeLeftExtends(now, p.table);
            }
            return Err(file.error), ds;
          }
          a := DupRawFd(file.value, r.fd);
        case Copy(source) => a := DupFd(source, r.fd);
        case Unusable => a := DupFd(-1, r.fd);
        case Shut => a := CloseFd(r.fd);
      }
      PrepareOne(rs[..n], ds, actions, origin, now, r, d, a, p.table);
      NumberedOne(rs[..n], ds, old(p.serial), next, r, d, p.serial);
      OneMoreOpened(rs, noclobber, files, ds, d);
      actions := actions + [a];
      ds := ds + [d];
    }
    assert rs[..|rs|] == rs;
    if CreatedBefore(origin, old(p.serial)) {
      NumberedIsNew(rs, ds, origin, old(p.serial), p.serial);
    }
    return Ok(actions), ds;
  }

  lemma NothingPrepared(rs: seq<Redirection>, origin: Table, serial: nat)
    ensures Prepared(rs[..0], [], [], origin, origin) && Numbered(rs[..0], [], serial, serial)
  {
  }

  lemma NumberedIsNew(rs: seq<Redirection>, ds: seq<Description>, origin: Table, from: nat, next: nat)
    requires |ds| == |rs| && Numbered(rs, ds, from, next) && CreatedBefore(origin, from)
    ensures OpenedNew(rs, ds, origin)
  {
  }

  /** The files opened have increasing serial numbers from `from` to `next`. */
  ghost predicate Numbered(rs: seq<Redirection>, ds: seq<Description>, from: nat, next: nat)
    requires |ds| == |rs|
  {
    && (forall k :: 0 <= k < |rs| && !IsDup(rs[k]) ==> from <= SerialOf(ds[k]) < next)
    && (forall j, k :: 0 <= j < k < |rs| && !IsDup(rs[j]) && !IsDup(rs[k]) ==> SerialOf(ds[j]) < SerialOf(ds[k]))
  }

  lemma NumberedOne(rs: seq<Redirection>, ds: seq<Description>, from: nat, next: nat, r: Redirection, d: Description, later: nat)
    requires |ds| == |rs| && Numbered(rs, ds, from, next) && from <= next <= later
    requires !IsDup(r) ==> next <= SerialOf(d) < later
    ensures Numbered(rs + [r], ds + [d], from, later)
  {
  }

  lemma DupOpensNothing(r: Redirection, noclobber: bool, files: Files, d: Description)
    requires IsDup(r)
    ensures Admitted(r, noclobber, files) && OpensAs(r, noclobber, files, d) && Creates(r, noclobber, files) == files
  {
  }

  lemma PreparedExtends(rs: seq<Redirection>, ds: seq<Description>, actions: seq<ChildFdAction>,
                        origin: Table, now: Table)
    requires Prepared(rs, ds, actions, origin, now)
    ensures |ds| == |rs| == |actions| && Extends(origin, now)
  {
  }

  lemma PrepareOne(rs: seq<Redirection>, ds: seq<Description>, actions: seq<ChildFdAction>,
                   origin: Table, now: Table, r: Redirection, d: Description, a: ChildFdAction, later: Table)
    requires Prepared(rs, ds, actions, origin, now)
    requires Valid(r) && ActionFor(r, a)
    requires if a.DupRawFd? then a.fd !in now && later == now[a.fd := Slot(d, !r.kind.HereDoc?)] else later == now
    ensures Prepared(rs + [r], ds + [d], actions + [a], origin, later)
  {
    hide ActionFor;
    var more := actions + [a];
    forall fd: nat ensures IsRaw(more, fd) <==> IsRaw(actions, fd) || (a.DupRawFd? && a.fd == fd) {
      assert more[|actions|] == a;
      if IsRaw(actions, fd) {
        var k :| 0 <= k < |actions| && actions[k].DupRawFd? && actions[k].fd == fd;
        assert more[k] == actions[k];
      }
    }
    forall k | 0 <= k < |more| && more[k].DupRawFd? ensures RawHolds(more[k], (rs + [r])[k], (ds + [d])[k], origin, later) {
      if k < |actions| {
        assert RawHolds(actions[k], rs[k], ds[k], origin, now);
        assert IsRaw(actions, actions[k].fd);
      }
    }
    forall j, k | 0 <= j < k < |more| && more[j].DupRawFd? && more[k].DupRawFd? ensures more[j].fd != more[k].fd {
      assert IsRaw(actions, more[j].fd);
    }
  }

  // ----- In the child -----

  /** What one action does to the child's table; None when it copies a closed descriptor. */
  function ActionTable(table: Table, a: ChildFdAction): Option<Table> {
    match a
    case DupRawFd(fd, targetFd) => if fd in table then Some(Duplicated(table, fd, targetFd)) else None
    case DupFd(source, targetFd) =>
      if source >= 0 && source in table then Some(Duplicated(table, source, targetFd)) else None
    case CloseFd(targetFd) => Some(table - {targetFd})
  }

  function ChildTable(table: Table, actions: seq<ChildFdAction>): Option<Table> {
    if actions == [] then Some(table)
    else
      match ChildTable(table, actions[..|actions| - 1])
      case None => None
      case Some(before) => ActionTable(before, actions[|actions| - 1])
  }

  lemma {:induction false} FailureIsFinal(table: Table, actions: seq<ChildFdAction>, n: nat)
    requires n <= |actions| && ChildTable(table, actions[..n]).None?
    ensures ChildTable(table, actions).None?
    decreases |actions| - n
  {
    if n == |actions| {
      assert actions[..n] == actions;
    } else {
      assert actions[..n + 1][..n] == actions[..n];
      FailureIsFinal(table, actions, n + 1);
    }
  }

  method ApplyChildFdActions(p: Process, actions: seq<ChildFdAction>) returns (ok: bool)
    modifies p`table
    ensures ok ==> ChildTable(old(p.table), actions) == Some(p.table)
    ensures !ok ==> ChildTable(old(p.table), actions).None?
  {
    for n := 0 to |actions|
      invariant ChildTable(old(p.table), actions[..n]) == Some(p.table)
    {
      assert actions[..n + 1][..n] == actions[..n];
      ghost var before := p.table;
      match actions[n] {
        case DupRawFd(fd, targetFd) => ok := p.Duplicate(fd, targetFd);
        case DupFd(source, targetFd) =>
          if source >= 0 {
            ok := p.Duplicate(source, targetFd);
          } else {
            ok := false;
          }
        case CloseFd(targetFd) =>
          var _ := p.Close(targetFd);
          ok := true;
      }
      if !ok {
        assert ActionTable(before, actions[n]).None?;
        FailureIsFinal(old(p.table), actions, n + 1);
        return;
      }
    }
    assert actions[..|actions|] == actions;
    return true;
  }

  // ----- When the child gets what the list means -----

  /** After n redirections the child has what they mean, the raw numbers they have not reached
      aside; it has failed exactly when they mean nothing. */
  ghost predicate AgreesAt(rs: seq<Redirection>, ds: seq<Description>, actions: seq<ChildFdAction>,
                           origin: Table, now: Table, n: nat)
    requires |ds| == |rs| == |actions| && n <= |rs| && forall r | r in rs :: Valid(r)
  {
    assert forall r | r in rs[..n] :: r in rs;
    var child, meant := ChildTable(now, actions[..n]), Meaning(origin, rs[..n], ds[..n]);
    && (child.Some? <==> meant.Some?)
    && (child.Some? ==> Matching(child.value, meant.value, rs[..n], actions, now))
  }

  ghost predicate Matching(child: Table, meant: Table, done: seq<Redirection>, actions: seq<ChildFdAction>, now: Table) {
    forall fd: nat ::
      if IsRaw(actions, fd) && fd !in Targets(done) then fd !in meant && Same(child, now, fd)
      else Same(child, meant, fd)
  }

  /** A file is moved from its raw number before anything is put there, and not to itself unless
      close-on-exec is off; a raw number is not copied before something is put there. */
  predicate InOrder(rs: seq<Redirection>, actions: seq<ChildFdAction>, n: nat)
    requires n < |rs| == |actions| && Valid(rs[n])
  {
    match EffectOf(rs[n])
    case Open =>
      && actions[n].DupRawFd?
      && actions[n].fd !in Targets(rs[..n]) && (actions[n].fd == rs[n].fd ==> rs[n].kind.HereDoc?)
    case Copy(source) => IsRaw(actions, source) ==> source in Targets(rs[..n])
    case _ => true
  }

  /** Every redirection that is reached is in order. */
  predicate Ordered(rs: seq<Redirection>, ds: seq<Description>, actions: seq<ChildFdAction>, origin: Table)
    requires |ds| == |rs| == |actions| && forall r | r in rs :: Valid(r)
  {
    forall n | 0 <= n < |rs| :: Valid(rs[n]) && (Reached(rs, ds, origin, n) ==> InOrder(rs, actions, n))
  }

  predicate Reached(rs: seq<Redirection>, ds: seq<Description>, origin: Table, n: nat)
    requires n <= |rs| == |ds| && forall r | r in rs :: Valid(r)
  {
    assert forall r | r in rs[..n] :: r in rs;
    Meaning(origin, rs[..n], ds[..n]).Some?
  }

  lemma ChildTableStep(table: Table, actions: seq<ChildFdAction>, n: nat)
    requires n < |actions|
    ensures ChildTable(table, actions[..n + 1])
         == (var before := ChildTable(table, actions[..n]);
             if before.None? then None else ActionTable(before.value, actions[n]))
  {
    assert actions[..n + 1][..n] == actions[..n];
  }

  lemma NothingDone(rs: seq<Redirection>, ds: seq<Description>, actions: seq<ChildFdAction>,
                    origin: Table, now: Table)
    requires Prepared(rs, ds, actions, origin, now)
    requires forall r | r in rs :: Valid(r)
    ensures AgreesAt(rs, ds, actions, origin, now, 0)
  {
    forall fd: nat
      ensures if IsRaw(actions, fd) then fd !in origin else Same(now, origin, fd)
    {
      if IsRaw(actions, fd) {
        var k :| 0 <= k < |actions| && actions[k].DupRawFd? && actions[k].fd == fd;
        assert RawHolds(actions[k], rs[k], ds[k], origin, now);
      }
    }
  }

  /** A redirection in order keeps the agreement. */
  lemma InOrderAgrees(rs: seq<Redirection>, ds: seq<Description>, actions: seq<ChildFdAction>,
                      origin: Table, now: Table, n: nat)
    requires Prepared(rs, ds, actions, origin, now) && n < |rs|
    requires forall r | r in rs :: Valid(r)
    requires Valid(rs[n]) && AgreesAt(rs, ds, actions, origin, now, n)
    requires Reached(rs, ds, origin, n) ==> InOrder(rs, actions, n)
    ensures AgreesAt(rs, ds, actions, origin, now, n + 1)
  {
    hide Matching, Redirected, ActionTable, IsRaw, Meaning, ChildTable;
    ChildTableStep(now, actions, n);
    MeaningStep(origin, rs, ds, n);
    TargetsGrow(rs, n);
    if Reached(rs, ds, origin, n) {
      RawIsRaw(rs, ds, actions, origin, now, n);
      StepMatches(rs[n], actions[n], ds[n], rs[..n], rs[..n + 1], actions, now,
                  ChildTable(now, actions[..n]).value, Meaning(origin, rs[..n], ds[..n]).value);
    }
  }

  lemma RawIsRaw(rs: seq<Redirection>, ds: seq<Description>, actions: seq<ChildFdAction>,
                 origin: Table, now: Table, n: nat)
    requires Prepared(rs, ds, actions, origin, now) && n < |rs|
    ensures Valid(rs[n]) && ActionFor(rs[n], actions[n])
    ensures actions[n].DupRawFd? ==>
              IsRaw(actions, actions[n].fd) && RawHolds(actions[n], rs[n], ds[n], origin, now)
  {
  }

  lemma StepMatches(r: Redirection, a: ChildFdAction, d: Description, done: seq<Redirection>, more: seq<Redirection>,
                    actions: seq<ChildFdAction>, now: Table, child: Table, meant: Table)
    requires Valid(r) && ActionFor(r, a) && Matching(child, meant, done, actions, now)
    requires Targets(more) == Targets(done) + {r.fd}
    requires match EffectOf(r)
             case Open =>
               && IsRaw(actions, a.fd) && a.fd in now && now[a.fd] == Slot(d, !r.kind.HereDoc?)
               && a.fd !in Targets(done) && (a.fd == r.fd ==> r.kind.HereDoc?)
             case Copy(source) => IsRaw(actions, source) ==> source in Targets(done)
             case _ => true
    ensures ActionTable(child, a).Some? <==> Redirected(meant, r, d).Some?
    ensures ActionTable(child, a).Some? ==>
              Matching(ActionTable(child, a).value, Redirected(meant, r, d).value, more, actions, now)
  {
    hide IsRaw, Targets;
    match EffectOf(r)
    case Open => assert Same(child, now, a.fd);
    case Copy(source) => assert Same(child, meant, source);
    case Unusable =>
    case Shut =>
  }

  /** What the list means holds only what was open and what it opened so far. */
  lemma {:induction false} MeaningLacks(origin: Table, rs: seq<Redirection>, ds: seq<Description>, d: Description)
    requires |ds| == |rs| && (forall r | r in rs :: Valid(r)) && Meaning(origin, rs, ds).Some?
    requires forall fd :: fd in origin ==> origin[fd].desc != d
    requires forall k :: 0 <= k < |rs| && !IsDup(rs[k]) ==> ds[k] != d
    ensures forall fd :: fd in Meaning(origin, rs, ds).value ==> Meaning(origin, rs, ds).value[fd].desc != d
  {
    if rs != [] {
      var n := |rs| - 1;
      assert forall r | r in rs[..n] :: r in rs;
      MeaningLacks(origin, rs[..n], ds[..n], d);
    }
  }

  /** A redirection out of order ends it. */
  lemma OutOfOrderDisagrees(rs: seq<Redirection>, ds: seq<Description>, actions: seq<ChildFdAction>,
                            origin: Table, now: Table, n: nat)
    requires Prepared(rs, ds, actions, origin, now) && n < |rs|
    requires (forall r | r in rs :: Valid(r)) && OpenedNew(rs, ds, origin)
    requires Valid(rs[n]) && AgreesAt(rs, ds, actions, origin, now, n)
    requires Reached(rs, ds, origin, n) && !InOrder(rs, actions, n)
    ensures !AgreesAt(rs, ds, actions, origin, now, n + 1)
  {
    hide Matching, Redirected, ActionTable, IsRaw, Meaning, ChildTable;
    ChildTableStep(now, actions, n);
    MeaningStep(origin, rs, ds, n);
    TargetsGrow(rs, n);
    RawIsRaw(rs, ds, actions, origin, now, n);
    if !IsDup(rs[n]) {
      assert forall r | r in rs[..n] :: r in rs;
      MeaningLacks(origin, rs[..n], ds[..n], ds[n]);
    }
    var child, meant := ChildTable(now, actions[..n]).value, Meaning(origin, rs[..n], ds[..n]).value;
    if EffectOf(rs[n]).Copy? {
      RawIsOpen(rs, ds, actions, origin, now, EffectOf(rs[n]).source);
    }
    StepDiffers(rs[n], actions[n], ds[n], rs[..n], rs[..n + 1], actions, now, child, meant);
  }

  lemma RawIsOpen(rs: seq<Redirection>, ds: seq<Description>, actions: seq<ChildFdAction>,
                  origin: Table, now: Table, fd: nat)
    requires Prepared(rs, ds, actions, origin, now)
    ensures IsRaw(actions, fd) ==> fd in now && fd !in origin
  {
    if IsRaw(actions, fd) {
      var k :| 0 <= k < |actions| && actions[k].DupRawFd? && actions[k].fd == fd;
      assert RawHolds(actions[k], rs[k], ds[k], origin, now);
    }
  }

  lemma StepDiffers(r: Redirection, a: ChildFdAction, d: Description, done: seq<Redirection>, more: seq<Redirection>,
                    actions: seq<ChildFdAction>, now: Table, child: Table, meant: Table)
    requires Valid(r) && ActionFor(r, a) && Matching(child, meant, done, actions, now)
    requires Targets(more) == Targets(done) + {r.fd}
    requires match EffectOf(r)
             case Open =>
               && IsRaw(actions, a.fd) && a.fd in now && now[a.fd] == Slot(d, !r.kind.HereDoc?)
               && (forall fd :: fd in meant ==> meant[fd].desc != d)
               && (a.fd in Targets(done) || (a.fd == r.fd && !r.kind.HereDoc?))
             case Copy(source) => IsRaw(actions, source) && source in now && source !in Targets(done)
             case _ => false
    ensures var after, meaning := ActionTable(child, a), Redirected(meant, r, d);
            (after.Some? <==> meaning.None?)
            || (after.Some? && !Matching(after.value, meaning.value, more, actions, now))
  {
    hide IsRaw, Targets;
    match EffectOf(r)
    case Open =>
      var after := ActionTable(child, a);
      if a.fd in Targets(done) {
        assert Same(child, meant, a.fd);
      } else {
        assert Same(child, now, a.fd);
      }
      if after.Some? {
        assert !Same(after.value, Redirected(meant, r, d).value, r.fd);
      }
    case Copy(source) =>
      assert Same(child, now, source) && source !in meant;
    case _ =>
  }

  /** The exact condition: the child agrees with the meaning after every prefix of the list if
      and only if the list is ordered. */
  lemma ChildAgreesExactly(rs: seq<Redirection>, ds: seq<Description>, actions: seq<ChildFdAction>,
                           origin: Table, now: Table)
    requires Prepared(rs, ds, actions, origin, now)
    requires (forall r | r in rs :: Valid(r)) && OpenedNew(rs, ds, origin)
    ensures Ordered(rs, ds, actions, origin)
       <==> forall n :: 0 <= n <= |rs| ==> AgreesAt(rs, ds, actions, origin, now, n)
  {
    hide Prepared, AgreesAt, Reached, InOrder, OpenedNew;
    PreparedExtends(rs, ds, actions, origin, now);
    if Ordered(rs, ds, actions, origin) {
      for n := 0 to |rs| + 1
        invariant forall k :: 0 <= k < n ==> AgreesAt(rs, ds, actions, origin, now, k)
      {
        OrderedAgrees(rs, ds, actions, origin, now, n);
      }
    } else {
      var n :| 0 <= n < |rs| && !(Valid(rs[n]) && (Reached(rs, ds, origin, n) ==> InOrder(rs, actions, n)));
      assert rs[n] in rs;
      if AgreesAt(rs, ds, actions, origin, now, n) {
        OutOfOrderDisagrees(rs, ds, actions, origin, now, n);
      }
    }
  }

  lemma {:induction false} OrderedAgrees(rs: seq<Redirection>, ds: seq<Description>, actions: seq<ChildFdAction>,
                                         origin: Table, now: Table, n: nat)
    requires Prepared(rs, ds, actions, origin, now)
    requires (forall r | r in rs :: Valid(r)) && Ordered(rs, ds, actions, origin) && n <= |rs|
    ensures AgreesAt(rs, ds, actions, origin, now, n)
  {
    hide Prepared, AgreesAt, Reached, InOrder;
    if n == 0 {
      NothingDone(rs, ds, actions, origin, now);
    } else {
      OrderedAgrees(rs, ds, actions, origin, now, n - 1);
      InOrderAgrees(rs, ds, actions, origin, now, n - 1);
    }
  }

  // ----- What the program gets -----

  /** The descriptors that survive exec. */
  function Exec(table: Table): Table {
    map fd | fd in table && !table[fd].cloexec :: table[fd]
  }

  /** A here-document's pipe is read on its raw number, which no redirection reaches. */
  predicate LeaksAt(rs: seq<Redirection>, actions: seq<ChildFdAction>, k: nat)
    requires k < |rs| == |actions|
  {
    rs[k].kind.HereDoc? && actions[k].DupRawFd? && actions[k].fd !in Targets(rs)
  }

  /** The program of an ordered list starts with exactly what the list means if and only if
      every here-document's raw number is the target of some redirection. */
  lemma ExecutedExactly(rs: seq<Redirection>, ds: seq<Description>, actions: seq<ChildFdAction>,
                        origin: Table, now: Table)
    requires Prepared(rs, ds, actions, origin, now)
    requires (forall r | r in rs :: Valid(r)) && Ordered(rs, ds, actions, origin)
    requires Meaning(origin, rs, ds).Some?
    ensures ChildTable(now, actions).Some?
    ensures Exec(ChildTable(now, actions).value) == Exec(Meaning(origin, rs, ds).value)
       <==> forall k :: 0 <= k < |rs| ==> !LeaksAt(rs, actions, k)
  {
    hide Ordered, Meaning, ChildTable;
    OrderedAgrees(rs, ds, actions, origin, now, |rs|);
    assert rs[..|rs|] == rs && ds[..|rs|] == ds && actions[..|rs|] == actions;
    var child, meant := ChildTable(now, actions).value, Meaning(origin, rs, ds).value;
    assert Matching(child, meant, rs, actions, now);
    forall fd: nat
      ensures Same(Exec(child), Exec(meant), fd)
         <==> forall k :: 0 <= k < |rs| && LeaksAt(rs, actions, k) ==> actions[k].fd != fd
    {
      LeakAt(rs, ds, actions, origin, now, child, meant, fd);
    }
    if forall k :: 0 <= k < |rs| ==> !LeaksAt(rs, actions, k) {
      SameEverywhere(Exec(child), Exec(meant));
    } else {
      var k :| 0 <= k < |rs| && LeaksAt(rs, actions, k);
      assert !Same(Exec(child), Exec(meant), actions[k].fd);
    }
  }

  lemma LeakAt(rs: seq<Redirection>, ds: seq<Description>, actions: seq<ChildFdAction>,
               origin: Table, now: Table, child: Table, meant: Table, fd: nat)
    requires Prepared(rs, ds, actions, origin, now) && Matching(child, meant, rs, actions, now)
    ensures Same(Exec(child), Exec(meant), fd)
       <==> forall k :: 0 <= k < |rs| && LeaksAt(rs, actions, k) ==> actions[k].fd != fd
  {
    if IsRaw(actions, fd) && fd !in Targets(rs) {
      var k :| 0 <= k < |actions| && actions[k].DupRawFd? && actions[k].fd == fd;
      assert RawHolds(actions[k], rs[k], ds[k], origin, now);
      assert Same(child, now, fd);
      assert fd in Exec(child) <==> rs[k].kind.HereDoc?;
      assert LeaksAt(rs, actions, k) <==> rs[k].kind.HereDoc?;
    } else {
      assert Same(child, meant, fd);
      assert forall k :: 0 <= k < |rs| && LeaksAt(rs, actions, k) ==> IsRaw(actions, actions[k].fd);
    }
  }

  /** A program that a redirected compound command runs starts with exactly what the list means:
      none of the guard's copies survives exec. */
  lemma CopiesDoNotLeak(origin: Table, rs: seq<Redirection>, ds: seq<Description>)
    requires |rs| == |ds| && (forall r | r in rs :: Valid(r)) && Run(origin, rs, ds).Some?
    requires forall n | 0 <= n < |rs| :: SourceIsFree(origin, rs, ds, n)
    ensures Meaning(origin, rs, ds).Some?
    ensures Exec(Run(origin, rs, ds).value.table) == Exec(Meaning(origin, rs, ds).value)
  {
    FreeSourcesAgree(origin, rs, ds, |rs|);
    assert rs[..|rs|] == rs && ds[..|rs|] == ds;
    CopiesAreMarked(origin, rs, ds);
    var table, meant := Run(origin, rs, ds).value.table, Meaning(origin, rs, ds).value;
    forall fd: nat ensures Same(Exec(table), Exec(meant), fd) {
      assert fd !in CopiesAt(origin, rs, ds) ==> Same(table, meant, fd);
    }
    SameEverywhere(Exec(table), Exec(meant));
  }

  // ----- The parent afterwards, and the other path -----

  /** Closing the raw descriptors gives the parent its table back. */
  method CloseParentRedirectionFds(p: Process, actions: seq<ChildFdAction>, ghost origin: Table)
    requires exists rs, ds :: Prepared(rs, ds, actions, origin, p.table)
    modifies p`table
    ensures p.table == origin
  {
    ghost var now := p.table;
    for k := 0 to |actions|
      invariant p.table == now - RawSet(actions[..k])
    {
      RawSetGrows(actions, k);
      if actions[k].DupRawFd? {
        var _ := p.Close(actions[k].fd);
      }
    }
    assert actions[..|actions|] == actions;
    WithoutRaw(actions, origin, now, p.table);
  }

  /** The descriptors opened for the actions. */
  function RawSet(actions: seq<ChildFdAction>): set<nat> {
    set a | a in actions && a.DupRawFd? :: a.fd
  }

  lemma RawSetGrows(actions: seq<ChildFdAction>, k: nat)
    requires k < |actions|
    ensures RawSet(actions[..k + 1])
         == RawSet(actions[..k]) + (if actions[k].DupRawFd? then {actions[k].fd} else {})
  {
    assert actions[..k + 1] == actions[..k] + [actions[k]];
    assert forall a :: a in actions[..k + 1] <==> a in actions[..k] || a == actions[k];
  }

  lemma WithoutRaw(actions: seq<ChildFdAction>, origin: Table, now: Table, after: Table)
    requires exists rs, ds :: Prepared(rs, ds, actions, origin, now)
    requires after == now - RawSet(actions)
    ensures after == origin
  {
    var rs, ds :| Prepared(rs, ds, actions, origin, now);
    forall fd: nat ensures fd in after <==> fd in origin {
      assert IsRaw(actions, fd) <==> fd in RawSet(actions);
      if IsRaw(actions, fd) {
        var k :| 0 <= k < |actions| && actions[k].DupRawFd? && actions[k].fd == fd;
        assert RawHolds(actions[k], rs[k], ds[k], origin, now);
      }
    }
  }

  /** The two paths agree: with the same files opened, the child has every descriptor that is
      neither a raw number left over nor where the guard has a copy, as the shell has it. */
  lemma PathsAgree(rs: seq<Redirection>, ds: seq<Description>, h: Held, actions: seq<ChildFdAction>,
                   origin: Table, parent: Table, fd: nat)
    requires Prepared(rs, ds, actions, origin, parent)
    requires (forall r | r in rs :: Valid(r)) && Ordered(rs, ds, actions, origin)
    requires Run(origin, rs, ds) == Some(h) && forall n | 0 <= n < |rs| :: SourceIsFree(origin, rs, ds, n)
    requires fd !in CopiesAt(origin, rs, ds) && (IsRaw(actions, fd) ==> fd in Targets(rs))
    ensures ChildTable(parent, actions).Some?
    ensures Same(ChildTable(parent, actions).value, h.table, fd)
  {
    FreeSourcesAgree(origin, rs, ds, |rs|);
    OrderedAgrees(rs, ds, actions, origin, parent, |rs|);
    assert rs[..|rs|] == rs && ds[..|rs|] == ds && actions[..|rs|] == actions;
    assert Same(h.table, Meaning(origin, rs, ds).value, fd);
    assert Same(ChildTable(parent, actions).value, Meaning(origin, rs, ds).value, fd);
  }

  // ----- Lists out of order -----

  /** Descriptors 0, 1 and 2 only: the next file opened gets number 3. */
  predicate OnlyStandard(table: Table) {
    table.Keys == {0, 1, 2}
  }

  lemma NextIsThree(table: Table)
    requires OnlyStandard(table)
    ensures LowestFree(table, 0) == 3
  {
    var fd := LowestFree(table, 0);
    assert 3 !in table;
  }

  /** `command 3>&1 4>file`: the file is opened first, as descriptor 3; copying 1 to 3 then
      overwrites it, and 4 ends as a copy of 1. */
  lemma RawDescriptorOverwritten(table: Table, file: Description)
    requires OnlyStandard(table)
    ensures var parent := table[LowestFree(table, 0) := Slot(file, true)];
            var child := ChildTable(parent, [DupFd(1, 3), DupRawFd(LowestFree(table, 0), 4)]);
            child.Some? && 4 in child.value && child.value[4].desc == table[1].desc
  {
    NextIsThree(table);
    var parent := table[3 := Slot(file, true)];
    var actions := [DupFd(1, 3), DupRawFd(3, 4)];
    assert actions[..1] == [DupFd(1, 3)] && actions[..1][..0] == [];
    assert ChildTable(parent, actions[..1]) == Some(parent[3 := Slot(table[1].desc, false)]);
  }

  /** `command 4>file 3>&1` is in order, although the file is opened as 3 and 3 is redirected. */
  lemma RawDescriptorMovedInTime(table: Table, file: Description, other: Description)
    requires OnlyStandard(table)
    ensures var rs := [Redirection(4, Write, "file"), Redirection(3, DupOutput, "1")];
            var actions := [DupRawFd(LowestFree(table, 0), 4), DupFd(1, 3)];
            (forall r | r in rs :: Valid(r)) && Ordered(rs, [file, other], actions, table)
  {
    NextIsThree(table);
    var rs := [Redirection(4, Write, "file"), Redirection(3, DupOutput, "1")];
    assert Decimal.ParseSigned("1") == Some(1);
    assert rs[..0] == [];
    assert Valid(rs[0]) && Valid(rs[1]);
    var actions := [DupRawFd(3, 4), DupFd(1, 3)];
    assert InOrder(rs, actions, 0);
    assert actions[0].fd == 3;
    assert !IsRaw(actions, 1);
    assert InOrder(rs, actions, 1);
  }

  /** `command 3>file`: the file is opened as descriptor 3 already, dup2 of 3 to 3 does
      nothing, and close-on-exec stays set, so the program is started without it. */
  lemma RawDescriptorStaysCloseOnExec(table: Table, file: Description)
    requires OnlyStandard(table)
    ensures var parent := table[LowestFree(table, 0) := Slot(file, true)];
            ChildTable(parent, [DupRawFd(LowestFree(table, 0), 3)]) == Some(parent) && 3 !in Exec(parent)
  {
    NextIsThree(table);
    var actions := [DupRawFd(3, 3)];
    assert actions[..0] == [];
  }
}
