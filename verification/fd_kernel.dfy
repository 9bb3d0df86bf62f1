/** Descriptor tables and the system calls the shell makes on them. A process maps descriptor
    numbers to open descriptions; allocation takes the lowest free number; every call that can
    fail for reasons of its own does so as the fault tape says. */
module FdKernel {
  import opened Wrappers

  datatype Mode = ReadOnly | Truncate | Exclusive | WriteOnly | AppendTo | ReadWrite

  /** An open file description. Serial numbers tell apart those created at different times. */
  datatype Description =
    | Inherited(id: nat)
    | File(path: string, mode: Mode, serial: nat)
    | ReadEnd(pipe: nat)
    | WriteEnd(pipe: nat)

  /** The serial number of a description the shell created. */
  function SerialOf(d: Description): int {
    match d
    case Inherited(_) => -1
    case File(_, _, serial) => serial
    case ReadEnd(pipe) => pipe
    case WriteEnd(pipe) => pipe
  }

  datatype Slot = Slot(desc: Description, cloexec: bool)

  type Table = map<nat, Slot>

  datatype Errno = BadDescriptor | FileExists | OtherError

  /** What goes wrong in a call that could otherwise succeed. */
  datatype Fault = NoFault | Failure

  type Faults = nat -> Fault

  /** Nothing goes wrong from entry `from` of the tape up to entry `to`. */
  ghost predicate FaultFree(faults: Faults, from: nat, to: nat) {
    forall k: nat :: from <= k < to ==> faults(k) == NoFault
  }

  lemma FaultsNone(faults: Faults, at: nat)
    ensures FaultFree(faults, at, at)
  {
  }

  lemma FaultsJoin(faults: Faults, from: nat, at: nat, to: nat)
    requires from <= at <= to
    ensures FaultFree(faults, from, to) <==> FaultFree(faults, from, at) && FaultFree(faults, at, to)
  {
  }

  /** What a path names: a regular file with its contents, or something else, such as a device. */
  datatype Node = Regular(contents: string) | Special

  /** The paths that exist. */
  type Files = map<string, Node>

  predicate IsRegular(files: Files, path: string) {
    path in files && files[path].Regular?
  }

  /** Whether a path can be opened: only some modes create, and one of them must. */
  predicate Openable(files: Files, path: string, mode: Mode) {
    match mode
    case ReadOnly => path in files
    case WriteOnly => path in files
    case Exclusive => path !in files
    case _ => true
  }

  /** The files once the path has been opened: created if it did not exist, and emptied if it is
      to be truncated. */
  function AfterOpening(files: Files, path: string, mode: Mode): Files {
    if path !in files || (mode == Truncate && IsRegular(files, path)) then files[path := Regular("")] else files
  }

  predicate CanRead(mode: Mode) {
    mode == ReadOnly || mode == ReadWrite
  }

  predicate CanWrite(mode: Mode) {
    mode != ReadOnly
  }

  /** The lowest number at or above `from` that the table does not use. */
  function LowestFree(table: Table, from: nat): (fd: nat)
    ensures fd >= from && fd !in table
    ensures forall k: nat :: from <= k < fd ==> k in table
    decreases |set k | k in table.Keys && k >= from|
  {
    if from in table then
      var rest := set k | k in table.Keys && k >= from + 1;
      assert (set k | k in table.Keys && k >= from) == rest + {from};
      LowestFree(table, from + 1)
    else from
  }

  class Process {
    const faults: Faults
    var table: Table
    var files: Files
    var clock: nat     // next entry of the fault tape
    var serial: nat    // next serial number

    constructor (table: Table, files: Files, faults: Faults, clock: nat, serial: nat)
      ensures this.table == table && this.files == files
      ensures this.faults == faults && this.clock == clock && this.serial == serial
    {
      this.table, this.files, this.faults, this.clock, this.serial := table, files, faults, clock, serial;
    }

    method Draw() returns (f: Fault)
      modifies this`clock
      ensures clock == old(clock) + 1 && f == faults(old(clock))
    {
      f := faults(clock);
      clock := clock + 1;
    }

    method OpenFile(path: string, mode: Mode) returns (r: Result<nat, Errno>)
      modifies this
      ensures r.Ok? <==> faults(old(clock)) == NoFault && Openable(old(files), path, mode)
      ensures r == Err(FileExists) <==> faults(old(clock)) == NoFault && mode == Exclusive && path in old(files)
      ensures r.Err? ==> table == old(table) && files == old(files) && r.error != BadDescriptor
      ensures r.Ok? ==> r.value == LowestFree(old(table), 0) && files == AfterOpening(old(files), path, mode)
      ensures r.Ok? ==> table == old(table)[r.value := Slot(File(path, mode, old(serial)), true)]
      ensures serial == old(serial) + 1 && clock == old(clock) + 1
    {
      var f := Draw();
      serial := serial + 1;
      if f != NoFault {
        return Err(OtherError);
      }
      if !Openable(files, path, mode) {
        return Err(if mode == Exclusive then FileExists else OtherError);
      }
      var fd := LowestFree(table, 0);
      table := table[fd := Slot(File(path, mode, serial - 1), true)];
      files := AfterOpening(files, path, mode);
      return Ok(fd);
    }

    /** fcntl F_DUPFD_CLOEXEC from 10. */
    method DuplicateToNew(fd: nat) returns (r: Result<nat, Errno>)
      modifies this
      ensures fd !in old(table) <==> r == Err(BadDescriptor)
      ensures clock == old(clock) + (if fd in old(table) then 1 else 0)
      ensures fd in old(table) ==> (r.Ok? <==> faults(old(clock)) == NoFault)
      ensures r.Err? ==> table == old(table)
      ensures r.Ok? ==> r.value == LowestFree(old(table), 10)
      ensures r.Ok? ==> table == old(table)[r.value := Slot(old(table)[fd].desc, true)]
      ensures serial == old(serial) && files == old(files)
    {
      if fd !in table {
        return Err(BadDescriptor);
      }
      var f := Draw();
      if f != NoFault {
        return Err(OtherError);
      }
      var number := LowestFree(table, 10);
      table := table[number := Slot(table[fd].desc, true)];
      return Ok(number);
    }

    /** dup2: nothing happens when the two numbers are the same. */
    method Duplicate(from: nat, to: nat) returns (ok: bool)
      modifies this`table
      ensures ok == (from in old(table))
      ensures table == if ok then Duplicated(old(table), from, to) else old(table)
    {
      if from !in table {
        return false;
      }
      if from != to {
        table := table[to := Slot(table[from].desc, false)];
      }
      return true;
    }

    method Close(fd: nat) returns (ok: bool)
      modifies this`table
      ensures ok == (fd in old(table))
      ensures table == old(table) - {fd}
    {
      ok := fd in table;
      table := table - {fd};
    }

    method ClearCloexec(fd: nat)
      requires fd in table
      modifies this`table
      ensures table == old(table)[fd := Slot(old(table)[fd].desc, false)]
    {
      table := table[fd := Slot(table[fd].desc, false)];
    }

    method CreatePipe() returns (r: Result<(nat, nat), Errno>)
      modifies this
      ensures r.Ok? <==> faults(old(clock)) == NoFault
      ensures r.Err? ==> table == old(table) && r.error != BadDescriptor
      ensures r.Ok? ==>
                var (read, write) := r.value;
                && read == LowestFree(old(table), 0)
                && write == LowestFree(old(table)[read := Slot(ReadEnd(old(serial)), false)], 0)
                && table == old(table)[read := Slot(ReadEnd(old(serial)), false)][write := Slot(WriteEnd(old(serial)), false)]
      ensures serial == old(serial) + 1 && clock == old(clock) + 1 && files == old(files)
    {
      var f := Draw();
      serial := serial + 1;
      if f != NoFault {
        return Err(OtherError);
      }
      var read := LowestFree(table, 0);
      table := table[read := Slot(ReadEnd(serial - 1), false)];
      var write := LowestFree(table, 0);
      table := table[write := Slot(WriteEnd(serial - 1), false)];
      return Ok((read, write));
    }

    method WriteAll(fd: nat) returns (ok: bool)
      modifies this`clock
      ensures ok == (faults(old(clock)) == NoFault) && clock == old(clock) + 1
    {
      var f := Draw();
      ok := f == NoFault;
    }
  }

  function Duplicated(table: Table, from: nat, to: nat): Table
    requires from in table
  {
    if from == to then table else table[to := Slot(table[from].desc, false)]
  }
}
