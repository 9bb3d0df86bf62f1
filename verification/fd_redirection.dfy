/** Redirections (src/exec/redirection.rs): what a list of them means, and applying one inside
    the shell. */
module FdRedirection {
  import opened Wrappers
  import opened FdKernel
  import Decimal

  datatype Kind = Read | Write | ClobberWrite | Append | HereDoc | ReadWriteBoth | DupInput | DupOutput

  datatype Redirection = Redirection(fd: nat, kind: Kind, target: string)

  /** Descriptors from here up belong to the shell. */
  const FIRST_PRIVATE: nat := 10

  // ----- What a redirection means -----

  datatype Effect = Open | Copy(source: nat) | Unusable | Shut   // `Unusable`: a negative number

  predicate IsDup(r: Redirection) {
    r.kind.DupInput? || r.kind.DupOutput?
  }

  /** Expansion has checked the operand of `<&` and `>&`. */
  predicate Valid(r: Redirection) {
    IsDup(r) && r.target != "-" ==>
      var n := Decimal.ParseSigned(r.target);
      n.Some? && -0x8000_0000 <= n.value <= 0x7fff_ffff
  }

  function EffectOf(r: Redirection): Effect
    requires Valid(r)
  {
    if !IsDup(r) then Open
    else if r.target == "-" then Shut
    else
      var n := Decimal.ParseSigned(r.target).value;
      if n >= 0 then Copy(n) else Unusable
  }

  /** The redirection is not refused: a file to be read exists, and noclobber spares every
      regular file from `>`. */
  predicate Admitted(r: Redirection, noclobber: bool, files: Files) {
    match r.kind
    case Read => r.target in files
    case Write => noclobber ==> !IsRegular(files, r.target)
    case _ => true
  }

  predicate OpensFile(r: Redirection) {
    !IsDup(r) && !r.kind.HereDoc?
  }

  /** How its file is opened. Under noclobber a file is created, or is opened as it is because it
      is no regular file. */
  function ModeOf(r: Redirection, noclobber: bool, files: Files): Mode
    requires OpensFile(r)
  {
    match r.kind
    case Read => ReadOnly
    case Write => if !noclobber then Truncate else if r.target in files then WriteOnly else Exclusive
    case ClobberWrite => Truncate
    case Append => AppendTo
    case _ => ReadWrite
  }

  /** The description `d` is what this redirection opens where these files exist. */
  predicate OpensAs(r: Redirection, noclobber: bool, files: Files, d: Description) {
    && (r.kind.HereDoc? ==> d.ReadEnd?)
    && (OpensFile(r) ==> d.File? && d.path == r.target && d.mode == ModeOf(r, noclobber, files))
  }

  /** The files that exist after it. */
  function Creates(r: Redirection, noclobber: bool, files: Files): Files {
    if OpensFile(r) then AfterOpening(files, r.target, ModeOf(r, noclobber, files)) else files
  }

  /** The files that exist after the first n redirections of a list. */
  function FilesAt(rs: seq<Redirection>, noclobber: bool, files: Files, n: nat): Files
    requires n <= |rs|
  {
    if n == 0 then files else Creates(rs[n - 1], noclobber, FilesAt(rs, noclobber, files, n - 1))
  }

  /** What each kind of redirection does to its file: only `>` and `>|` empty a regular file, and
      `>` does not under noclobber, where it is refused; all but `<` create a missing one; no
      other file changes. */
  lemma WhatOpeningDoes(fd: nat, path: string, noclobber: bool, files: Files, kind: Kind)
    requires OpensFile(Redirection(fd, kind, path)) && Admitted(Redirection(fd, kind, path), noclobber, files)
    ensures var after := Creates(Redirection(fd, kind, path), noclobber, files);
            && path in after && (path !in files ==> kind != Read && after[path] == Regular(""))
            && (path in files && kind in {Read, Append, ReadWriteBoth} ==> after == files)
            && (IsRegular(files, path) && kind in {Write, ClobberWrite} ==> after[path] == Regular(""))
            && (IsRegular(files, path) && kind == Write ==> !noclobber)
            && (path in files && files[path].Special? ==> after == files)
            && forall other | other in files && other != path :: other in after && after[other] == files[other]
  {
  }

  /** And how it can be used: `<` to read, `<>` to read and write, the others to write, `>>` at
      the end. */
  lemma WhatIsOpened(fd: nat, path: string, noclobber: bool, files: Files, kind: Kind)
    requires OpensFile(Redirection(fd, kind, path))
    ensures var mode := ModeOf(Redirection(fd, kind, path), noclobber, files);
            && (CanRead(mode) <==> kind in {Read, ReadWriteBoth})
            && (CanWrite(mode) <==> kind != Read)
            && (mode == AppendTo <==> kind == Append)
  {
  }

  /** The descriptions are those of the first redirections of the list, none of which is refused. */
  predicate Opened(rs: seq<Redirection>, noclobber: bool, files: Files, ds: seq<Description>) {
    && |ds| <= |rs|
    && forall k :: 0 <= k < |ds| ==>
         Admitted(rs[k], noclobber, FilesAt(rs, noclobber, files, k)) && OpensAs(rs[k], noclobber, FilesAt(rs, noclobber, files, k), ds[k])
  }

  /** One redirection, on a table of descriptors; None when it copies a closed one. */
  function Redirected(view: Table, r: Redirection, d: Description): Option<Table>
    requires Valid(r)
  {
    match EffectOf(r)
    case Open => Some(view[r.fd := Slot(d, false)])
    case Copy(source) => if source in view then Some(Duplicated(view, source, r.fd)) else None
    case Unusable => None
    case Shut => Some(view - {r.fd})
  }

  /** A list of redirections takes effect from left to right. `ds` are the descriptions opened. */
  function Meaning(view: Table, rs: seq<Redirection>, ds: seq<Description>): Option<Table>
    requires |ds| == |rs| && forall r | r in rs :: Valid(r)
  {
    if rs == [] then Some(view)
    else
      var n := |rs| - 1;
      assert forall r | r in rs[..n] :: r in rs;
      match Meaning(view, rs[..n], ds[..n])
      case None => None
      case Some(before) => Redirected(before, rs[n], ds[n])
  }

  lemma MeaningStep(view: Table, rs: seq<Redirection>, ds: seq<Description>, n: nat)
    requires n < |rs| == |ds| && forall r | r in rs :: Valid(r)
    ensures forall r | r in rs[..n] :: Valid(r)
    ensures forall r | r in rs[..n + 1] :: Valid(r)
    ensures Valid(rs[n])
    ensures Meaning(view, rs[..n + 1], ds[..n + 1])
         == (var before := Meaning(view, rs[..n], ds[..n]);
             if before.None? then None else Redirected(before.value, rs[n], ds[n]))
  {
    assert forall r | r in rs[..n + 1] :: r in rs;
    assert forall r | r in rs[..n] :: r in rs;
    assert rs[..n + 1][..n] == rs[..n] && ds[..n + 1][..n] == ds[..n];
    assert rs[n] in rs;
  }

  function Targets(rs: seq<Redirection>): set<nat> {
    set r | r in rs :: r.fd
  }

  lemma {:induction false} MeaningChangesTargets(view: Table, rs: seq<Redirection>, ds: seq<Description>, fd: nat)
    requires |ds| == |rs| && forall r | r in rs :: Valid(r)
    requires Meaning(view, rs, ds).Some? && fd !in Targets(rs)
    ensures var after := Meaning(view, rs, ds).value;
            (fd in after <==> fd in view) && (fd in view ==> after[fd] == view[fd])
  {
    if rs != [] {
      var n := |rs| - 1;
      assert forall r | r in rs[..n] :: r in rs;
      assert rs[n] in rs;
      assert rs[n].fd in Targets(rs);
      MeaningChangesTargets(view, rs[..n], ds[..n], fd);
    }
  }

  /** What each form of one redirection does to its target, the operand taken as it is written. */
  lemma RedirectionMeans(view: Table, fd: nat, n: nat, kind: Kind, d: Description)
    requires kind.DupInput? || kind.DupOutput?
    requires n <= 0x7fff_ffff
    ensures var close := Redirection(fd, kind, "-");
            Valid(close) && Redirected(view, close, d) == Some(view - {fd})
    ensures var copy := Redirection(fd, kind, Decimal.Text(n));
            && Valid(copy)
            && (Redirected(view, copy, d).Some? <==> n in view)
            && (n in view ==>
                  var after := Redirected(view, copy, d).value;
                  fd in after && after[fd].desc == view[n].desc && (fd != n ==> !after[fd].cloexec))
    ensures var open := Redirection(fd, Write, "file");
            Valid(open) && Redirected(view, open, d) == Some(view[fd := Slot(d, false)])
  {
    Decimal.ParseInvertsText(n);
    var t := Decimal.Text(n);
    Decimal.NumeralStartsWithDigit(Decimal.Ten, n);
    assert t[0] != '-';
  }

  // ----- Applying inside the shell -----

  /** The open that a file or here-document redirection starts with. `d` is the description. It
      fails only if the redirection is refused or something goes wrong. */
  method OpenFor(p: Process, r: Redirection, noclobber: bool) returns (res: Result<nat, Errno>, ghost d: Description)
    requires !IsDup(r)
    modifies p
    ensures res.Ok? <==> Admitted(r, noclobber, old(p.files)) && FaultFree(p.faults, old(p.clock), p.clock)
    ensures res.Ok? ==>
              && res.value == LowestFree(old(p.table), 0)
              && OpensAs(r, noclobber, old(p.files), d)
              && p.table == old(p.table)[res.value := Slot(d, !r.kind.HereDoc?)]
              && old(p.serial) <= SerialOf(d) < p.serial
    ensures res.Err? ==> p.table == old(p.table) || (r.kind.HereDoc? && PipeLeft(old(p.table), p.table))
    ensures res != Err(BadDescriptor) && old(p.serial) <= p.serial && old(p.clock) <= p.clock
    ensures p.files == if res.Ok? then Creates(r, noclobber, old(p.files)) else old(p.files)
  {
    d := Inherited(0);
    match r.kind {
    case HereDoc => res := OpenHereDoc(p);
    case Write =>
      if noclobber {
        ghost var serial;
        res, serial := OpenForWriteNoclobber(p, r.target);
      } else {
        res := p.OpenFile(r.target, Truncate);
      }
    case Read => res := p.OpenFile(r.target, ReadOnly);
    case ClobberWrite => res := p.OpenFile(r.target, Truncate);
    case Append => res := p.OpenFile(r.target, AppendTo);
    case ReadWriteBoth => res := p.OpenFile(r.target, ReadWrite);
    }
    if res.Ok? {
      d := p.table[res.value].desc;
    }
  }

  /** The body is written to a new pipe, whose write end is then closed. */
  method OpenHereDoc(p: Process) returns (res: Result<nat, Errno>)
    modifies p
    ensures res.Ok? <==> FaultFree(p.faults, old(p.clock), p.clock)
    ensures res.Ok? ==>
              && res.value == LowestFree(old(p.table), 0)
              && p.table == old(p.table)[res.value := Slot(ReadEnd(old(p.serial)), false)]
    ensures res.Err? ==> (p.table == old(p.table) || PipeLeft(old(p.table), p.table)) && res.error != BadDescriptor
    ensures p.serial == old(p.serial) + 1 && old(p.clock) < p.clock && p.files == old(p.files)
  {
    var pipe := p.CreatePipe();
    if pipe.Err? {
      return Err(pipe.error);
    }
    var (readFd, writeFd) := pipe.value;
    var written := p.WriteAll(writeFd);
    if !written {
      assert p.table == WithNewPipe(old(p.table), old(p.serial));
      return Err(OtherError);
    }
    var _ := p.Close(writeFd);
    return Ok(readFd);
  }

  /** A path that does not exist is created; one that exists is opened unless it names a regular
      file, which is refused. */
  method OpenForWriteNoclobber(p: Process, path: string) returns (res: Result<nat, Errno>, ghost serial: nat)
    modifies p
    ensures res.Ok? <==> !IsRegular(old(p.files), path) && FaultFree(p.faults, old(p.clock), p.clock)
    ensures IsRegular(old(p.files), path) && p.faults(old(p.clock)) == NoFault ==> res == Err(FileExists)
    ensures res.Ok? ==>
              && res.value == LowestFree(old(p.table), 0)
              && old(p.serial) <= serial < p.serial
              && p.table == old(p.table)[res.value :=
                   Slot(File(path, if path in old(p.files) then WriteOnly else Exclusive, serial), true)]
    ensures res.Err? ==> p.table == old(p.table) && res.error != BadDescriptor
    ensures p.files == if res.Ok? && path !in old(p.files) then old(p.files)[path := Regular("")] else old(p.files)
    ensures old(p.serial) <= p.serial && old(p.clock) < p.clock
  {
    serial := p.serial;
    res := p.OpenFile(path, Exclusive);
    if res.Err? && res.error == FileExists {
      var regular := IsRegular(p.files, path);
      if !regular {
        serial := p.serial;
        res := p.OpenFile(path, WriteOnly);
      }
    }
  }

  function WithNewPipe(table: Table, id: nat): Table {
    var read := LowestFree(table, 0);
    var half := table[read := Slot(ReadEnd(id), false)];
    half[LowestFree(half, 0) := Slot(WriteEnd(id), false)]
  }

  /** `b` is `a` with both ends of a pipe more: the body of a here-document was not written. */
  ghost predicate PipeLeft(a: Table, b: Table) {
    exists id: nat :: b == WithNewPipe(a, id)
  }

  /** Every descriptor of `a` is unchanged in `b`, which may have more. */
  predicate Extends(a: Table, b: Table) {
    forall fd | fd in a :: fd in b && b[fd] == a[fd]
  }

  lemma PipeLeftExtends(a: Table, b: Table)
    requires PipeLeft(a, b)
    ensures Extends(a, b)
  {
  }

  /** Moves an open descriptor to the target, in place when it already is the target. */
  method ReplaceShellFd(p: Process, fd: nat, target: nat)
    requires fd in p.table
    modifies p`table
    ensures p.table == (old(p.table) - {fd})[target := Slot(old(p.table)[fd].desc, false)]
  {
    if fd == target {
      p.ClearCloexec(fd);
      return;
    }
    var _ := p.Duplicate(fd, target);
    var _ := p.Close(fd);
  }

  method ApplyShellRedirection(p: Process, r: Redirection, noclobber: bool)
    returns (res: Result<(), Errno>, ghost d: Description)
    requires Valid(r)
    modifies p
    ensures res.Ok? <==>
              && Redirected(old(p.table), r, d).Some? && Admitted(r, noclobber, old(p.files))
              && FaultFree(p.faults, old(p.clock), p.clock)
    ensures res.Ok? ==> OpensAs(r, noclobber, old(p.files), d) && Redirected(old(p.table), r, d) == Some(p.table)
    ensures res.Err? ==> p.table == old(p.table) || (r.kind.HereDoc? && PipeLeft(old(p.table), p.table))
    ensures res == Err(BadDescriptor) <==> Redirected(old(p.table), r, d).None?
    ensures p.files == (if res.Ok? then Creates(r, noclobber, old(p.files)) else old(p.files)) && old(p.clock) <= p.clock
  {
    d := Inherited(0);
    match EffectOf(r) {
    case Open =>
      var file;
      file, d := OpenFor(p, r, noclobber);
      if file.Err? {
        return Err(file.error), d;
      }
      ReplaceShellFd(p, file.value, r.fd);
      assert p.table == old(p.table)[r.fd := Slot(d, false)];
    case Shut =>
      var _ := p.Close(r.fd);
    case Unusable =>
      return Err(BadDescriptor), d;
    case Copy(source) =>
      var ok := p.Duplicate(source, r.fd);
      if !ok {
        return Err(BadDescriptor), d;
      }
    }
    return Ok(()), d;
  }
}
