/** Pipelines (src/exec/pipeline.rs): one child per command, each pipe created just before the
    fork of the command that writes to it. */
module FdPipeline {
  import opened Wrappers
  import opened FdKernel

  datatype ProcessGroupPlan = NewGroup | Join(pgid: nat)

  /** A forked child at the moment its command starts. */
  datatype Child = Child(pid: nat, pgid: nat, table: Table)

  datatype Spawned = Spawned(children: seq<Child>, pgid: Option<nat>)

  // ----- What each child should see -----

  /** A table with standard input and output replaced, where a replacement is given. */
  function Plumbed(base: Table, input: Option<Description>, output: Option<Description>): Table {
    var t := if input.Some? then base[0 := Slot(input.value, false)] else base;
    if output.Some? then t[1 := Slot(output.value, false)] else t
  }

  /** Child `j` of `n` reads the previous pipe, or what the first one is given, and writes the
      next pipe if there is one. */
  function InputOf(j: nat, first: Option<Description>, pipes: seq<nat>): Option<Description>
    requires j <= |pipes|
  {
    if j == 0 then first else Some(ReadEnd(pipes[j - 1]))
  }

  function OutputOf(j: nat, pipes: seq<nat>): Option<Description> {
    if j < |pipes| then Some(WriteEnd(pipes[j])) else None
  }

  function Without(table: Table, fd: Option<nat>): Table {
    if fd.Some? then table - {fd.value} else table
  }

  function DescriptionAt(table: Table, fd: Option<nat>): Option<Description>
    requires fd.Some? ==> fd.value in table
  {
    if fd.Some? then Some(table[fd.value].desc) else None
  }

  // ----- Forking -----

  /** The child's half of the plumbing. */
  method SetUpChild(c: Process, stdinFd: Option<nat>, stdoutPipe: Option<(nat, nat)>)
    modifies c`table
    ensures c.table == Written(Fed(old(c.table), stdinFd), stdoutPipe)
  {
    if stdinFd.Some? {
      var _ := c.Duplicate(stdinFd.value, 0);
      var _ := c.Close(stdinFd.value);
    }
    if stdoutPipe.Some? {
      var (r, w) := stdoutPipe.value;
      var _ := c.Close(r);
      var _ := c.Duplicate(w, 1);
      var _ := c.Close(w);
    }
  }

  function Moved(table: Table, from: nat, to: nat): Table {
    (if from in table then Duplicated(table, from, to) else table) - {from}
  }

  function Fed(table: Table, stdinFd: Option<nat>): Table {
    if stdinFd.Some? then Moved(table, stdinFd.value, 0) else table
  }

  function Written(table: Table, stdoutPipe: Option<(nat, nat)>): Table {
    if stdoutPipe.Some? then Moved(table - {stdoutPipe.value.0}, stdoutPipe.value.1, 1) else table
  }

  /** The parent's table once the pipe for the next child exists. */
  function WithPipe(table: Table, r: nat, w: nat, id: nat): Table {
    table[r := Slot(ReadEnd(id), false)][w := Slot(WriteEnd(id), false)]
  }

  method ForkAndExecuteCommand(p: Process, stdinFd: Option<nat>, pipeStdout: bool, plan: ProcessGroupPlan)
    returns (res: Result<Child, Errno>, stdoutFd: Option<nat>)
    modifies p
    ensures res.Ok? ==>
              var child := res.value;
              var before := old(p.table);
              var r := LowestFree(before, 0);
              var w := LowestFree(before[r := Slot(ReadEnd(old(p.serial)), false)], 0);
              && child.pid >= old(p.serial)
              && child.pgid == (match plan case NewGroup => child.pid case Join(g) => g)
              && p.serial > child.pid
              && (pipeStdout ==>
                    && child.pid > old(p.serial)
                    && child.table == Written(Fed(WithPipe(before, r, w, old(p.serial)), stdinFd), Some((r, w)))
                    && p.table == Without(WithPipe(before, r, w, old(p.serial)), stdinFd) - {w}
                    && stdoutFd == Some(r))
              && (!pipeStdout ==>
                    && child.table == Fed(before, stdinFd)
                    && p.table == Without(before, stdinFd)
                    && stdoutFd == None)
    ensures res.Ok? <==> FaultFree(p.faults, old(p.clock), p.clock)
    ensures old(p.clock) < p.clock
    ensures res.Err? ==>
              var r := LowestFree(old(p.table), 0);
              var w := LowestFree(old(p.table)[r := Slot(ReadEnd(old(p.serial)), false)], 0);
              p.table == old(p.table) || (pipeStdout && p.table == WithPipe(old(p.table), r, w, old(p.serial)))
  {
    var stdoutPipe: Option<(nat, nat)> := None;
    stdoutFd := None;
    if pipeStdout {
      var pipe := p.CreatePipe();
      if pipe.Err? {
        return Err(pipe.error), None;
      }
      stdoutPipe := Some(pipe.value);
    }
    var fault := p.Draw();
    if fault != NoFault {
      return Err(OtherError), None;
    }
    var pid := p.serial;
    p.serial := p.serial + 1;
    var c := new Process(p.table, p.files, p.faults, p.clock, p.serial);
    SetUpChild(c, stdinFd, stdoutPipe);
    var pgid := match plan case NewGroup => pid case Join(g) => g;
    if stdinFd.Some? {
      var _ := p.Close(stdinFd.value);
    }
    if stdoutPipe.Some? {
      var (r, w) := stdoutPipe.value;
      var _ := p.Close(w);
      stdoutFd := Some(r);
    }
    return Ok(Child(pid, pgid, c.table)), stdoutFd;
  }

  /** With descriptor 0 open, a new pipe's ends are above 0 and its write end is above 1. */
  lemma PipeNumbers(table: Table, id: nat)
    ensures var r := LowestFree(table, 0);
            var w := LowestFree(table[r := Slot(ReadEnd(id), false)], 0);
            && w != r && r !in table && w !in table
            && (0 in table ==> r >= 1 && w >= 2)
            && (0 !in table ==> r == 0)
  {
    var r := LowestFree(table, 0);
    var t := table[r := Slot(ReadEnd(id), false)];
    var w := LowestFree(t, 0);
    assert w !in t;
  }

  /** One child, when the parent holds `base` and its input descriptor. */
  lemma ChildIsPlumbed(base: Table, stdinFd: Option<nat>, slot: Slot, before: Table, id: nat)
    requires 0 in base && (stdinFd.Some? ==> stdinFd.value !in base)
    requires before == if stdinFd.Some? then base[stdinFd.value := slot] else base
    ensures var input := if stdinFd.Some? then Some(slot.desc) else None;
            var r := LowestFree(before, 0);
            var w := LowestFree(before[r := Slot(ReadEnd(id), false)], 0);
            && Written(Fed(WithPipe(before, r, w, id), stdinFd), Some((r, w))) == Plumbed(base, input, Some(WriteEnd(id)))
            && Without(WithPipe(before, r, w, id), stdinFd) - {w} == base[r := Slot(ReadEnd(id), false)]
            && r !in base && r >= 1
            && Fed(before, stdinFd) == Plumbed(base, input, None)
            && Without(before, stdinFd) == base
  {
    PipeNumbers(before, id);
    var r := LowestFree(before, 0);
    var w := LowestFree(before[r := Slot(ReadEnd(id), false)], 0);
    var full := WithPipe(before, r, w, id);
    var input := if stdinFd.Some? then Some(slot.desc) else None;
    var fed := Fed(full, stdinFd);
    assert fed == Plumbed(base, input, None)[r := Slot(ReadEnd(id), false)][w := Slot(WriteEnd(id), false)];
    assert Fed(before, stdinFd) == Plumbed(base, input, None);
    assert Without(before, stdinFd) == base;
  }

  /** The parent's table, whether descriptor 0 is open or not. */
  lemma ParentIsBack(base: Table, stdinFd: Option<nat>, slot: Slot, before: Table, id: nat)
    requires stdinFd.Some? ==> stdinFd.value !in base
    requires before == if stdinFd.Some? then base[stdinFd.value := slot] else base
    ensures var r := LowestFree(before, 0);
            var w := LowestFree(before[r := Slot(ReadEnd(id), false)], 0);
            && Without(WithPipe(before, r, w, id), stdinFd) - {w} == base[r := Slot(ReadEnd(id), false)]
            && r !in base
            && Without(before, stdinFd) == base
  {
    PipeNumbers(before, id);
    var r := LowestFree(before, 0);
    var w := LowestFree(before[r := Slot(ReadEnd(id), false)], 0);
    assert Without(WithPipe(before, r, w, id), stdinFd) - {w} == base[r := Slot(ReadEnd(id), false)];
    assert Without(before, stdinFd) == base;
  }

  /** All of `base`, and nothing more but the input given and ends of pipes numbered from `from`. */
  predicate LeftWith(base: Table, table: Table, given: Option<nat>, from: nat) {
    && (forall fd | fd in base :: fd in table && table[fd] == base[fd])
    && (forall fd | fd in table && fd !in base ::
          || given == Some(fd)
          || (table[fd].desc.ReadEnd? && table[fd].desc.pipe >= from)
          || (table[fd].desc.WriteEnd? && table[fd].desc.pipe >= from))
  }

  /** What a fork that fails leaves: the input it was given, and its pipe if it made one. */
  lemma LeftAfterFailure(base: Table, stdinFd: Option<nat>, slot: Slot, before: Table, id: nat, given: Option<nat>, from: nat)
    requires stdinFd.Some? ==> stdinFd == given || (slot.desc.ReadEnd? && slot.desc.pipe >= from)
    requires stdinFd.Some? ==> stdinFd.value !in base
    requires before == if stdinFd.Some? then base[stdinFd.value := slot] else base
    requires id >= from
    ensures var r := LowestFree(before, 0);
            var w := LowestFree(before[r := Slot(ReadEnd(id), false)], 0);
            LeftWith(base, before, given, from) && LeftWith(base, WithPipe(before, r, w, id), given, from)
  {
    PipeNumbers(before, id);
  }

  /** With descriptor 0 closed, a first command that is given an input and writes to a pipe loses
      the input: the pipe is read as descriptor 0 and that end is closed, or the input is
      descriptor 0 already and is closed after being moved to where it is. */
  lemma GivenInputLost(base: Table, given: nat, slot: Slot, id: nat)
    requires 0 !in base && given !in base
    ensures var before := base[given := slot];
            var r := LowestFree(before, 0);
            var w := LowestFree(before[r := Slot(ReadEnd(id), false)], 0);
            && 0 !in Written(Fed(WithPipe(before, r, w, id), Some(given)), Some((r, w)))
            && (given == 0 ==> 0 !in Fed(before, Some(given)))
            && (given != 0 ==> Fed(before, Some(given)) == Plumbed(base, Some(slot.desc), None))
  {
    PipeNumbers(base[given := slot], id);
  }

  /** With descriptor 0 closed, the first pipe is read as descriptor 0; the child that is to
      read it then closes it. */
  lemma InputLost(before: Table, id: nat)
    ensures var r := LowestFree(before, 0);
            var w := LowestFree(before[r := Slot(ReadEnd(id), false)], 0);
            && (0 !in before ==> r == 0 && 0 in Without(WithPipe(before, r, w, id), None) - {w})
            && (0 in before ==> 0 !in Written(Fed(WithPipe(before, r, w, id), Some(0)), Some((r, w))))
            && 0 !in Fed(before, Some(0))
            && Fed(before, None) == Plumbed(before, None, None)
  {
    PipeNumbers(before, id);
  }

  // ----- The loop over the commands -----

  lemma FirstInput(first: Option<Description>)
    ensures InputOf(0, first, []) == first && OutputOf(0, []) == None
  {
  }

  /** A new pipe leaves the earlier children's ends as they are. */
  lemma PipeAdded(first: Option<Description>, pipes: seq<nat>, id: nat)
    ensures forall j :: 0 <= j <= |pipes| ==> InputOf(j, first, pipes + [id]) == InputOf(j, first, pipes)
    ensures forall j :: 0 <= j < |pipes| ==> OutputOf(j, pipes + [id]) == OutputOf(j, pipes)
    ensures OutputOf(|pipes|, pipes + [id]) == Some(WriteEnd(id)) && OutputOf(|pipes|, pipes) == None
    ensures InputOf(|pipes| + 1, first, pipes + [id]) == Some(ReadEnd(id))
    ensures |pipes| == 0 ==> InputOf(0, first, pipes) == first
  {
  }

  /** With descriptor 0 closed: a single command has its input unless that was descriptor 0, and of
      several the first that is to read something has lost it. */
  ghost predicate InputsLost(base: Table, given: Option<nat>, first: Option<Description>, n: nat,
                             children: seq<Child>, previous: Option<nat>, table: Table)
  {
    0 !in base ==>
      && (given.None? && n >= 2 ==>
            && (|children| == 1 ==> previous == Some(0) && 0 in table)
            && (|children| >= 2 ==> 0 !in children[1].table))
      && (given.Some? && |children| >= 1 && (n >= 2 || given == Some(0)) ==> 0 !in children[0].table)
      && (n == 1 && |children| == 1 && given != Some(0) ==> children[0].table == Plumbed(base, first, None))
  }

  lemma LoseInput(base: Table, given: Option<nat>, slot: Slot, first: Option<Description>, n: nat, children: seq<Child>,
                  previous: Option<nat>, before: Table, id: nat, child: Child, next: Option<nat>, after: Table)
    requires |children| < n && InputsLost(base, given, first, n, children, previous, before)
    requires |children| == 0 ==> previous == given && first == (if given.Some? then Some(slot.desc) else None)
    requires previous.Some? ==> previous.value !in base
    requires before == if previous.Some? then base[previous.value := slot] else base
    requires var r := LowestFree(before, 0);
             var w := LowestFree(before[r := Slot(ReadEnd(id), false)], 0);
             if |children| + 1 < n then
               && child.table == Written(Fed(WithPipe(before, r, w, id), previous), Some((r, w)))
               && after == Without(WithPipe(before, r, w, id), previous) - {w} && next == Some(r)
             else child.table == Fed(before, previous)
    ensures InputsLost(base, given, first, n, children + [child], next, after)
  {
    hide Written, Fed, WithPipe, LowestFree, Plumbed;
    if 0 !in base {
      if |children| == 0 && given.Some? {
        GivenInputLost(base, given.value, slot, id);
      } else {
        InputLost(before, id);
      }
    }
  }

  lemma NothingLost(base: Table, given: Option<nat>, first: Option<Description>, n: nat, previous: Option<nat>, table: Table)
    ensures InputsLost(base, given, first, n, [], previous, table)
  {
  }

  lemma LostAtTheEnd(base: Table, given: Option<nat>, first: Option<Description>, n: nat, children: seq<Child>,
                     previous: Option<nat>, table: Table)
    requires |children| == n && InputsLost(base, given, first, n, children, previous, table)
    requires given.Some? ==> given.value !in base
    ensures 0 !in base && n >= 2 ==> 0 !in children[if given.Some? then 0 else 1].table
    ensures given == Some(0) && n == 1 ==> 0 !in children[0].table
    ensures 0 !in base && n == 1 && given != Some(0) ==> children[0].table == Plumbed(base, first, None)
  {
  }

  /** Starts a pipeline of `n` commands. `pipes` are the serial numbers of its pipes. */
  method SpawnPipeline(p: Process, n: nat, stdinOverride: Option<nat>)
    returns (res: Result<Spawned, Errno>, ghost pipes: seq<nat>)
    requires stdinOverride.Some? ==> stdinOverride.value in p.table
    modifies p
    ensures res.Ok? <==> FaultFree(p.faults, old(p.clock), p.clock)
    ensures old(p.clock) <= p.clock
    ensures res.Ok? ==> |res.value.children| == n && |pipes| == if n == 0 then 0 else n - 1
    ensures res.Ok? ==> forall k :: 0 <= k < |pipes| ==> pipes[k] >= old(p.serial)
    ensures res.Ok? ==> forall j, k :: 0 <= j < k < |pipes| ==> pipes[j] != pipes[k]
    ensures res.Ok? ==> forall j :: 0 <= j < n ==>
              res.value.children[j].pgid == res.value.children[0].pid && res.value.pgid == Some(res.value.children[0].pid)
    ensures res.Ok? && n > 0 ==> p.table == Without(old(p.table), stdinOverride)
    ensures var base := Without(old(p.table), stdinOverride);
            res.Ok? && n > 0 && (0 in base || (n == 1 && stdinOverride != Some(0))) ==>
              forall j :: 0 <= j < n ==>
                res.value.children[j].table
                == Plumbed(base, InputOf(j, DescriptionAt(old(p.table), stdinOverride), pipes), OutputOf(j, pipes))
    ensures res.Ok? && 0 !in Without(old(p.table), stdinOverride) && n >= 2 ==>
              0 !in res.value.children[if stdinOverride.Some? then 0 else 1].table
    ensures res.Ok? && stdinOverride == Some(0) && n == 1 ==> 0 !in res.value.children[0].table
    ensures res.Err? ==> LeftWith(Without(old(p.table), stdinOverride), p.table, stdinOverride, old(p.serial))
  {
    hide Plumbed, Written, Fed, WithPipe, LowestFree, LeftWith, InputOf, OutputOf, FaultFree, InputsLost;
    ghost var start := p.table;
    ghost var base := Without(start, stdinOverride);
    ghost var first := DescriptionAt(start, stdinOverride);
    var previous := stdinOverride;
    ghost var slot := if previous.Some? then start[previous.value] else Slot(Inherited(0), false);
    var children: seq<Child> := [];
    var pgid: Option<nat> := None;
    pipes := [];
    assert previous.Some? ==> base[previous.value := slot] == start;
    FirstInput(first);
    NothingLost(base, stdinOverride, first, n, previous, p.table);
    FaultsNone(p.faults, p.clock);
    for i := 0 to n
      invariant |children| == i && |pipes| == (if i == n && n > 0 then n - 1 else i)
      invariant old(p.serial) <= p.serial
      invariant old(p.clock) <= p.clock && FaultFree(p.faults, old(p.clock), p.clock)
      invariant forall k :: 0 <= k < |pipes| ==> old(p.serial) <= pipes[k] < p.serial
      invariant forall j, k :: 0 <= j < k < |pipes| ==> pipes[j] != pipes[k]
      invariant pgid == if i == 0 then None else Some(children[0].pid)
      invariant forall j :: 0 <= j < i ==> children[j].pgid == children[0].pid
      invariant n > 0 && previous.Some? ==> previous.value !in base
      invariant n > 0 ==> p.table == if previous.Some? then base[previous.value := slot] else base
      invariant previous.Some? <==> (if i == 0 then stdinOverride.Some? else i < n)
      invariant i < n && previous.Some? ==> Some(slot.desc) == InputOf(i, first, pipes)
      invariant 0 in base ==> forall j :: 0 <= j < i ==>
                  j <= |pipes| && children[j].table == Plumbed(base, InputOf(j, first, pipes), OutputOf(j, pipes))
      invariant if i == 0 then previous == stdinOverride
                else previous.Some? ==> slot.desc.ReadEnd? && slot.desc.pipe >= old(p.serial)
      invariant InputsLost(base, stdinOverride, first, n, children, previous, p.table)
    {
      var isLast := i + 1 == n;
      var plan := match pgid case Some(g) => Join(g) case None => NewGroup;
      ghost var before, id, tick := p.table, p.serial, p.clock;
      var child, stdoutFd;
      child, stdoutFd := ForkAndExecuteCommand(p, previous, !isLast, plan);
      ParentIsBack(base, previous, slot, before, id);
      FaultsJoin(p.faults, old(p.clock), tick, p.clock);
      if child.Err? {
        LeftAfterFailure(base, previous, slot, before, id, stdinOverride, old(p.serial));
        return Err(child.error), pipes;
      }
      if 0 in base {
        ChildIsPlumbed(base, previous, slot, before, id);
      }
      LoseInput(base, stdinOverride, slot, first, n, children, previous, before, id, child.value, stdoutFd, p.table);
      PipeAdded(first, pipes, id);
      pipes := if isLast then pipes else pipes + [id];
      slot := Slot(ReadEnd(id), false);
      if pgid.None? {
        pgid := Some(child.value.pid);
      }
      previous := stdoutFd;
      children := children + [child.value];
    }
    LostAtTheEnd(base, stdinOverride, first, n, children, previous, p.table);
    return Ok(Spawned(children, pgid)), pipes;
  }

  /** No descriptor of the table refers to a pipe numbered `from` or later. */
  predicate NoNewPipe(table: Table, from: nat) {
    forall fd | fd in table ::
      match table[fd].desc
      case ReadEnd(id) => id < from
      case WriteEnd(id) => id < from
      case _ => true
  }

  /** In a pipeline so plumbed, each pipe is written by one child, as descriptor 1, and read by
      the next, as descriptor 0; nobody else holds an end of it. */
  lemma PipeHolders(base: Table, first: Option<Description>, pipes: seq<nat>, from: nat, children: seq<Child>,
                    i: nat, j: nat, fd: nat)
    requires NoNewPipe(base, from)
    requires first.Some? ==> forall k :: 0 <= k < |pipes| ==> first.value != ReadEnd(pipes[k]) && first.value != WriteEnd(pipes[k])
    requires |children| == |pipes| + 1 && i < |pipes| && j < |children|
    requires forall k :: 0 <= k < |pipes| ==> pipes[k] >= from
    requires forall k, l :: 0 <= k < l < |pipes| ==> pipes[k] != pipes[l]
    requires forall k :: 0 <= k < |children| ==>
               children[k].table == Plumbed(base, InputOf(k, first, pipes), OutputOf(k, pipes))
    ensures fd in base ==> base[fd].desc != WriteEnd(pipes[i]) && base[fd].desc != ReadEnd(pipes[i])
    ensures fd in children[j].table && children[j].table[fd].desc == WriteEnd(pipes[i]) <==> j == i && fd == 1
    ensures fd in children[j].table && children[j].table[fd].desc == ReadEnd(pipes[i]) <==> j == i + 1 && fd == 0
  {
    var t := children[j].table;
    assert t == Plumbed(base, InputOf(j, first, pipes), OutputOf(j, pipes));
  }

  // ----- Waiting -----

  datatype WaitOutcome = Exited(code: int) | Signaled(signal: nat)

  function CodeOf(o: WaitOutcome): int {
    match o
    case Exited(code) => code
    case Signaled(signal) => 128 + signal
  }

  /** The status of the last child, and that of the rightmost child that failed (for pipefail). */
  method WaitForChildren(outcomes: seq<WaitOutcome>) returns (last: int, rightmost: int)
    ensures last == if outcomes == [] then 0 else CodeOf(outcomes[|outcomes| - 1])
    ensures outcomes != [] && outcomes[|outcomes| - 1].Signaled? ==> last == 128 + outcomes[|outcomes| - 1].signal
    ensures rightmost == 0 <==> forall k :: 0 <= k < |outcomes| ==> CodeOf(outcomes[k]) == 0
    ensures rightmost != 0 ==>
              exists k :: 0 <= k < |outcomes| && rightmost == CodeOf(outcomes[k])
                          && forall j :: k < j < |outcomes| ==> CodeOf(outcomes[j]) == 0
  {
    last, rightmost := 0, 0;
    for i := 0 to |outcomes|
      invariant last == if i == 0 then 0 else CodeOf(outcomes[i - 1])
      invariant rightmost == 0 ==> forall k :: 0 <= k < i ==> CodeOf(outcomes[k]) == 0
      invariant rightmost != 0 ==>
                  exists k :: 0 <= k < i && rightmost == CodeOf(outcomes[k])
                              && forall j :: k < j < i ==> CodeOf(outcomes[j]) == 0
    {
      match outcomes[i] {
        case Exited(code) =>
          last := code;
          if code != 0 {
            rightmost := code;
          }
        case Signaled(signal) =>
          last := 128 + signal;
          rightmost := 128 + signal;
      }
    }
  }
}
