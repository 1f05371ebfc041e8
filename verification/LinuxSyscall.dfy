/** linux_syscall.c: the system calls on descriptors and pipes, over state shared by
    all tasks. */
module LinuxSyscall {
  import opened Bytes
  import opened PipeBytes
  import opened LinuxMemory
  import opened FileTables

  datatype PipeFlags = PipeFlags(nonblock: bool, cloexec: bool, unknown: bool)

  class Files {
    const tasks: nat
    const fds: nat
    const pipeSize: nat
    const memory: Memory

    var files: map<Cell, nat>
    var closeOnExec: set<Cell>
    var descriptions: seq<OpenFile>
    var pipes: seq<Pipe>
    var pending: seq<PipeIo>
    var fileTask: nat

    /** Per pipe slot, since its last creation: chunks accepted and bytes delivered. */
    ghost var journal: seq<seq<Chunk>>
    ghost var delivered: seq<seq<Byte>>

    ghost predicate Valid()
      reads this
    {
      && fileTask < tasks && 3 <= fds <= INT_MAX && 0 < pipeSize <= INT_MAX
      && |descriptions| == tasks * fds && |pending| == tasks
      && TablesOk(tasks, fds, files, descriptions, pipes)
      && closeOnExec <= files.Keys
      && TransfersOk(pipeSize, files, descriptions, pipes, pending, journal, delivered)
    }

    /** linux_syscall_reset: descriptors 0, 1 and 2 of the first task on the terminal. */
    constructor (taskCount: nat, fdCount: nat, capacity: nat, machine: Memory)
      requires taskCount >= 1 && 3 <= fdCount <= INT_MAX && 0 < capacity <= INT_MAX
      ensures Valid()
      ensures tasks == taskCount && fds == fdCount && pipeSize == capacity && memory == machine
      ensures fileTask == 0 && closeOnExec == {}
      ensures files == map[Cell(0, 0) := 0, Cell(0, 1) := 1, Cell(0, 2) := 2]
      ensures |pipes| == fds * tasks / 2
      ensures forall d :: 0 <= d < 3 ==>
        descriptions[d] == OpenFile(1, if d == 0 then ReadOnly else WriteOnly, false, false, Terminal)
      ensures forall t :: 0 <= t < tasks ==> !pending[t].active
    {
      tasks, fds, pipeSize, memory := taskCount, fdCount, capacity, machine;
      files := map[Cell(0, 0) := 0, Cell(0, 1) := 1, Cell(0, 2) := 2];
      closeOnExec := {};
      fileTask := 0;
      var blank := OpenFile(0, ReadOnly, false, false, Regular);
      var terminals := [OpenFile(1, ReadOnly, false, false, Terminal),
                        OpenFile(1, WriteOnly, false, false, Terminal),
                        OpenFile(1, WriteOnly, false, false, Terminal)];
      TableHoldsThree(taskCount, fdCount);
      descriptions := terminals + seq(taskCount * fdCount - 3, _ => blank);
      pipes := seq(fdCount * taskCount / 2, _ => Pipe(0, 0, 0, 0, seq(capacity, _ => 0)));
      pending := seq(taskCount, _ => PipeIo(false, false, 0, [], 0, 0, 0, 0));
      journal := seq(fdCount * taskCount / 2, _ => []);
      delivered := seq(fdCount * taskCount / 2, _ => []);
      new;
      hide TablesOk, TransfersOk;
      FreshTables(tasks, fds, files, descriptions, pipes);
      FreshTransfers(pipeSize, files, descriptions, pipes, pending, journal, delivered);
    }

    function Current(fd: nat): Cell
      reads this
    {
      Cell(fileTask, fd)
    }

    method CloseFd(fd: nat) returns (r: int)
      requires Valid() && !pending[fileTask].active
      modifies `files, `closeOnExec, `descriptions, `pipes
      ensures Valid()
      ensures r == if Current(fd) in old(files) then 0 else -EBADF
      ensures files == old(files) - {Current(fd)}
      ensures closeOnExec == old(closeOnExec) - {Current(fd)}
      ensures SameFiles(old(descriptions), descriptions) && SamePipes(old(pipes), pipes)
    {
      hide RefsExact, EndsExact, HistoriesOk, AllPendingOk, PipesOk;
      var cell := Current(fd);
      if cell !in files {
        assert files == files - {cell};
        return -EBADF;
      }
      var d := files[cell];
      CloseKeeps(tasks, fds, files, descriptions, pipes, cell);
      var f := descriptions[d];
      descriptions := descriptions[d := f.(refs := f.refs - 1)];
      if f.refs - 1 == 0 && f.kind.PipeEnd? {
        pipes := EndLost(f, pipes);
      }
      files := files - {cell};
      closeOnExec := closeOnExec - {cell};
      PendingUntouched(pending, old(files), old(descriptions), pipeSize, files, descriptions);
      HistoriesUntouched(pipeSize, old(pipes), journal, delivered, pipes);
      r := 0;
    }

    method Switch(slot: nat)
      requires Valid() && slot < tasks
      modifies `fileTask
      ensures Valid() && fileTask == slot
    {
      fileTask := slot;
    }

    /** The tables as one value. */
    ghost function State(): FileState
      reads this
    {
      FileState(files, descriptions, pipes, pending, journal, delivered)
    }

    lemma PendingPipe(slot: nat)
      requires Valid() && slot < tasks && pending[slot].active
      ensures Cell(slot, pending[slot].fd) in files && files[Cell(slot, pending[slot].fd)] < |descriptions|
      ensures var kind := descriptions[files[Cell(slot, pending[slot].fd)]].kind;
        kind.PipeEnd? && kind.pipe < |pipes| && pipes[kind.pipe].used <= pipeSize
    {
    }

    /** linux_io_ready. */
    method CheckReady(slot: nat) returns (ready: bool)
      requires Valid() && slot < tasks
      ensures ready == State().CanGoOn(pipeSize, slot)
    {
      if !pending[slot].active { return false; }
      PendingPipe(slot);
      var file := descriptions[files[Cell(slot, pending[slot].fd)]];
      ready := Ready(pipeSize, file.nonblock, pending[slot], pipes[file.kind.pipe]);
    }

    /** The copy loop of `linux_io_resume`, on the transfer and the pipe it was given. */
    method MoveBytes(start: PipeIo, end: Pipe, n: nat) returns (io: PipeIo, pipe: Pipe)
      requires pipeSize > 0 && end.Ok(pipeSize) && start.CursorOk() && start.active
      requires VectorsInWindow(memory.base, |memory.arena|, start.vectors)
      requires start.total + n <= start.length
      requires n <= if start.writing then pipeSize - end.used else end.used
      modifies memory`arena
      ensures start.total + n <= |Addresses(start.vectors)|
      ensures InWindow(memory.base, |old(memory.arena)|, Addresses(start.vectors))
      ensures Moved(memory.base, Side(start, end, old(memory.arena), [], []), Side(io, pipe, memory.arena, [], []), n)
      ensures io.CursorOk()
    {
      hide Moved, PipeIo.CursorOk, VectorsInWindow, InWindow, Addresses, TotalLength, Gather, Scatter;
      io, pipe := start, end;
      ghost var a := Side(start, end, memory.arena, [], []);
      var available: nat := n;
      MovedNothing(pipeSize, memory.base, a);
      while available > 0
        invariant available <= n
        invariant |memory.arena| == |a.memory|
        invariant Moved(memory.base, a, Side(io, pipe, memory.arena, [], []), n - available)
        invariant io == start.(index := io.index, offset := io.offset, total := start.total + n - available)
        invariant pipe.Ok(pipeSize)
        invariant if start.writing then pipe.used + available <= pipeSize else available <= pipe.used
        invariant io.CursorOk()
        decreases available, |io.vectors| - io.index
      {
        ghost var b := Side(io, pipe, memory.arena, [], []);
        CursorHasVector(io);
        var vector := io.vectors[io.index];
        if io.offset == vector.length {
          io := io.(index := io.index + 1, offset := 0);
          MovedCursor(memory.base, a, b, n - available, io);
          continue;
        }
        WrapIsModulo(pipeSize, pipe.head, pipe.used);
        var position := if io.writing then (pipe.head + pipe.used) % pipeSize else pipe.head;
        var chunk := vector.length - io.offset;
        if chunk > available { chunk := available; }
        if chunk > pipeSize - position { chunk := pipeSize - position; }
        var user := vector.address + io.offset - memory.base;
        if io.writing {
          ChunkWritten(pipeSize, memory.base, b, chunk);
          pipe := pipe.(data := Splice(pipe.data, position, memory.arena[user..user + chunk]), used := pipe.used + chunk);
        } else {
          ChunkRead(pipeSize, memory.base, b, chunk);
          memory.arena := Splice(memory.arena, user, pipe.data[position..position + chunk]);
          pipe := pipe.(used := pipe.used - chunk, head := (position + chunk) % pipeSize);
        }
        io := Advance(io, chunk);
        MovedCompose(pipeSize, memory.base, a, b, Side(io, pipe, memory.arena, [], []), n - available, chunk);
        available := available - chunk;
      }
    }

    function FileOf(slot: nat): OpenFile
      requires slot < |pending|
      requires Cell(slot, pending[slot].fd) in files && files[Cell(slot, pending[slot].fd)] < |descriptions|
      reads this
    {
      descriptions[files[Cell(slot, pending[slot].fd)]]
    }

    /** The body of `linux_io_resume` on the transfer, the pipe and the file it looked up. */
    method Step(io: PipeIo, pipe: Pipe, nonblock: bool, ghost journal: seq<Chunk>, ghost delivered: seq<Byte>)
      returns (io': PipeIo, pipe': Pipe, outcome: Outcome, ghost journal': seq<Chunk>, ghost delivered': seq<Byte>)
      requires pipeSize > 0 && Side(io, pipe, memory.arena, journal, delivered).Ok(pipeSize, memory.base)
      modifies memory`arena
      ensures io'.CursorOk()
      ensures Resumed(pipeSize, memory.base, nonblock, Side(io, pipe, old(memory.arena), journal, delivered),
                      Side(io', pipe', memory.arena, journal', delivered'), outcome)
    {
      hide Addresses, TotalLength, Gather, Scatter, Joined, Atomic, Resumed, Moved, VectorsInWindow, InWindow;
      ghost var a := Side(io, pipe, memory.arena, journal, delivered);
      io', pipe', journal', delivered' := io, pipe, journal, delivered;
      if io.writing && pipe.readers == 0 {
        io', outcome := io.(active := false), SigPipe;
        UnmovedStep(pipeSize, memory.base, nonblock, a, a.Stopped(), outcome);
        return;
      }
      if !io.writing && pipe.used == 0 && pipe.writers == 0 {
        io', outcome := io.(active := false), Done(0);
        UnmovedStep(pipeSize, memory.base, nonblock, a, a.Stopped(), outcome);
        return;
      }
      var available := if io.writing then pipeSize - pipe.used else pipe.used;
      if available == 0 || (io.writing && io.length <= pipeSize && available < io.length) {
        if !nonblock {
          outcome := Wait;
          UnmovedStep(pipeSize, memory.base, nonblock, a, a, outcome);
          return;
        }
        io', outcome := io.(active := false), Done(if io.total > 0 then io.total else -EAGAIN);
        UnmovedStep(pipeSize, memory.base, nonblock, a, a.Stopped(), outcome);
        return;
      }
      var remaining := io.length - io.total;
      if available > remaining { available := remaining; }
      TransferInWindow(pipeSize, memory.base, a);
      io', pipe' := MoveBytes(io, pipe, available);
      journal', delivered' := Record(memory.base, a, available);
      MovedFacts(memory.base, a.(journal := [], delivered := []), a, Side(io', pipe', memory.arena, [], []),
                 Side(io', pipe', memory.arena, journal', delivered'), available);
      if io.writing && io'.total < io.length && !nonblock {
        outcome := Wait;
      } else {
        io', outcome := io'.(active := false), Done(io'.total);
      }
      MovedStep(pipeSize, memory.base, nonblock, a, Side(io', pipe', memory.arena, journal', delivered'), outcome);
    }

    /** linux_io_resume for the current task's pending transfer. */
    method IoResume() returns (outcome: Outcome)
      requires Valid() && pending[fileTask].active
      requires |memory.arena| == memory.size
      requires VectorsInWindow(memory.base, memory.size, pending[fileTask].vectors)
      modifies `pipes, `pending, `journal, `delivered, memory`arena
      ensures Valid() && |memory.arena| == memory.size
      ensures var p := old(FileOf(fileTask).kind.pipe);
        && p < |old(pipes)| == |pipes|
        && var a := Side(old(pending)[fileTask], old(pipes)[p], old(memory.arena), old(journal)[p], old(delivered)[p]);
        && var b := Side(pending[fileTask], pipes[p], memory.arena, journal[p], delivered[p]);
        && a.Ok(pipeSize, memory.base)
        && Resumed(pipeSize, memory.base, old(FileOf(fileTask)).nonblock, a, b, outcome)
        && pipes == old(pipes)[p := pipes[p]]
        && pending == old(pending)[fileTask := pending[fileTask]]
        && journal == old(journal)[p := journal[p]]
        && delivered == old(delivered)[p := delivered[p]]
      ensures var io := pending[fileTask];
        io == old(pending)[fileTask].(active := io.active, index := io.index, offset := io.offset, total := io.total)
    {
      hide Resumed, Side.Ok, RefsExact, EndsExact, AllPendingOk, PipesOk, HistoriesOk;
      PendingSide(pipeSize, memory.base, memory.arena, files, descriptions, pipes, pending, journal, delivered, fileTask);
      var io := pending[fileTask];
      var file := FileOf(fileTask);
      var p := file.kind.pipe;
      ghost var a := Side(io, pipes[p], memory.arena, journal[p], delivered[p]);
      var io', pipe', result, journal', delivered' := Step(io, pipes[p], file.nonblock, journal[p], delivered[p]);
      ghost var b := Side(io', pipe', memory.arena, journal', delivered');
      StepKeepsState(pipeSize, memory.base, tasks, fds, files, descriptions, pipes, pending, journal, delivered,
                     fileTask, p, a, b, result);
      ResumedKeepsPending(pipeSize, memory.base, file.nonblock, a, b, result);
      pending := pending[fileTask := io'];
      pipes := pipes[p := pipe'];
      journal := journal[p := journal'];
      delivered := delivered[p := delivered'];
      outcome := result;
    }

    /** Nobody but the current task is touched when its cells go away. */
    ghost predicate OnlyCounts(before: seq<OpenFile>, beforePipes: seq<Pipe>)
      reads this
    {
      SameFiles(before, descriptions) && SamePipes(beforePipes, pipes)
    }

    /** linux_syscall_exec: descriptors marked close-on-exec do not survive. */
    method CloseOnExec()
      requires Valid() && !pending[fileTask].active
      modifies `files, `closeOnExec, `descriptions, `pipes
      ensures Valid()
      ensures files == map c | c in old(files) && !(c.task == fileTask && c in old(closeOnExec)) :: old(files)[c]
      ensures closeOnExec == set c | c in old(closeOnExec) && c.task != fileTask
      ensures OnlyCounts(old(descriptions), old(pipes))
    {
      hide TablesOk, TransfersOk;
      for fd := 0 to fds
        invariant Valid()
        invariant files == map c | c in old(files) && !(c.task == fileTask && c.fd < fd && c in old(closeOnExec)) :: old(files)[c]
        invariant closeOnExec == set c | c in old(closeOnExec) && !(c.task == fileTask && c.fd < fd)
        invariant OnlyCounts(old(descriptions), old(pipes))
      {
        var cell := Current(fd);
        if cell in files && cell in closeOnExec {
          var r := CloseFd(fd);
        }
      }
      CellsInTable();
    }

    lemma CellsInTable()
      requires Valid()
      ensures forall c :: c in files ==> c.task < tasks && c.fd < fds && files[c] < |descriptions|
      ensures forall c :: c in closeOnExec ==> c in files
    {
    }

    /** Forget a transfer. */
    method Deactivate(slot: nat)
      requires Valid() && slot < tasks
      modifies `pending
      ensures Valid() && pending == old(pending)[slot := old(pending)[slot].(active := false)]
    {
      hide TablesOk, HistoriesOk, PipesOk, PipeIo.CursorOk;
      pending := pending[slot := pending[slot].(active := false)];
    }

    /** linux_files_exit. */
    method Exit(slot: nat)
      requires Valid() && slot < tasks
      modifies `files, `closeOnExec, `descriptions, `pipes, `pending, `fileTask
      ensures Valid() && fileTask == old(fileTask)
      ensures files == WithoutTask(old(files), slot)
      ensures closeOnExec == set c | c in old(closeOnExec) && c.task != slot
      ensures OnlyCounts(old(descriptions), old(pipes))
      ensures pending == old(pending)[slot := old(pending)[slot].(active := false)]
    {
      Deactivate(slot);
      hide TablesOk, TransfersOk;
      var previous := fileTask;
      fileTask := slot;
      CellsInTable();
      for fd := 0 to fds
        invariant Valid() && fileTask == slot
        invariant pending == old(pending)[slot := old(pending)[slot].(active := false)]
        invariant files == map c | c in old(files) && !(c.task == slot && c.fd < fd) :: old(files)[c]
        invariant closeOnExec == set c | c in old(closeOnExec) && !(c.task == slot && c.fd < fd)
        invariant OnlyCounts(old(descriptions), old(pipes))
      {
        if Current(fd) in files {
          var r := CloseFd(fd);
        } else {
          assert Current(fd) !in closeOnExec;
        }
      }
      fileTask := previous;
    }

    /** Point an empty cell of a live description at it: the last step of dup, dup2,
        F_DUPFD and of every copy made by fork. */
    method Share(cell: Cell, d: nat, cloexec: bool)
      requires Valid() && cell !in files && cell.task < tasks && cell.fd < fds
      requires d < |descriptions| && descriptions[d].refs > 0
      modifies `files, `closeOnExec, `descriptions
      ensures Valid()
      ensures files == old(files)[cell := d]
      ensures closeOnExec == if cloexec then old(closeOnExec) + {cell} else old(closeOnExec)
      ensures descriptions == old(descriptions)[d := old(descriptions)[d].(refs := old(descriptions)[d].refs + 1)]
    {
      hide RefsExact, EndsExact, HistoriesOk, AllPendingOk, PipesOk, KindsOk;
      ShareKeeps(tasks, fds, files, descriptions, pipes, cell, d);
      descriptions := descriptions[d := descriptions[d].(refs := descriptions[d].refs + 1)];
      files := files[cell := d];
      closeOnExec := if cloexec then closeOnExec + {cell} else closeOnExec;
      PendingUntouched(pending, old(files), old(descriptions), pipeSize, files, descriptions);
    }

    /** linux_files_fork: the child shares every open file of its parent. */
    method Fork(parent: nat, child: nat)
      requires Valid() && parent < tasks && child < tasks && parent != child
      requires forall c :: c in files ==> c.task != child
      modifies `files, `closeOnExec, `descriptions, `pending
      ensures Valid()
      ensures files == WithCopies(old(files), parent, child, fds)
      ensures closeOnExec == old(closeOnExec) + CopiedMarks(old(closeOnExec), parent, child, fds)
      ensures SameFiles(old(descriptions), descriptions)
      ensures pending == old(pending)[child := old(pending)[child].(active := false)]
    {
      hide TablesOk, TransfersOk, WithCopies;
      Deactivate(child);
      CellsInTable();
      WithCopiesNone(files, parent, child);
      for fd := 0 to fds
        invariant Valid() && pending == old(pending)[child := old(pending)[child].(active := false)]
        invariant files == WithCopies(old(files), parent, child, fd)
        invariant closeOnExec == old(closeOnExec) + CopiedMarks(old(closeOnExec), parent, child, fd)
        invariant SameFiles(old(descriptions), descriptions)
      {
        WithCopiesStep(old(files), parent, child, fd);
        WithCopiesAt(old(files), parent, child, fd, Cell(parent, fd));
        if Cell(parent, fd) in files {
          LiveDescription(Cell(parent, fd));
          var cloexec := Cell(parent, fd) in closeOnExec;
          Share(Cell(child, fd), files[Cell(parent, fd)], cloexec);
        }
      }
    }

    lemma LiveDescription(c: Cell)
      requires Valid() && c in files
      ensures files[c] < |descriptions| && descriptions[files[c]].refs > 0
    {
      assert c in Holders(files, files[c]);
    }

    /** free_fd: the lowest free descriptor from `minimum` on. */
    method LowestFd(minimum: nat) returns (r: int)
      requires minimum <= fds
      ensures var free := FreeFd(files, fileTask, fds, minimum); r == if free < fds then free else -EMFILE
    {
      var i := minimum;
      while i < fds
        invariant minimum <= i <= fds
        invariant FreeFd(files, fileTask, fds, minimum) == FreeFd(files, fileTask, fds, i)
      {
        if Current(i) !in files {
          return i;
        }
        i := i + 1;
      }
      r := -EMFILE;
    }

    method LowestDescription(start: nat) returns (r: nat)
      requires start <= |descriptions|
      ensures r == FreeDescription(descriptions, start)
    {
      r := start;
      while r < |descriptions| && descriptions[r].refs > 0
        invariant start <= r <= |descriptions|
        invariant FreeDescription(descriptions, start) == FreeDescription(descriptions, r)
      {
        r := r + 1;
      }
    }

    method LowestPipe() returns (r: nat)
      ensures r == FreePipe(pipes, 0)
    {
      r := 0;
      while r < |pipes| && !pipes[r].Idle()
        invariant r <= |pipes|
        invariant FreePipe(pipes, 0) == FreePipe(pipes, r)
      {
        r := r + 1;
      }
    }

    /** What pipe and pipe2 answer. */
    ghost function PipeResult(address: nat, flags: PipeFlags): (r: int)
      reads this, memory
      ensures -0x8000_0000 <= r <= 0
    {
      var a := FreeFd(files, fileTask, fds, 0);
      var b := if a < fds then FreeFd(files, fileTask, fds, a + 1) else fds;
      if flags.unknown then -EINVAL
      else if !memory.UserRange(address, 8) then -EFAULT
      else if b == fds then -EMFILE
      else if FreePipe(pipes, 0) == |pipes| then -ENFILE
      else 0
    }

    /** create_pipe. Of the three shortages it tests for, the one of descriptions cannot
        happen; the other two are reported exactly when they do. */
    method CreatePipe(address: nat, flags: PipeFlags) returns (r: int)
      requires Valid() && |memory.arena| == memory.size
      modifies `files, `closeOnExec, `descriptions, `pipes, `journal, `delivered, memory`arena
      ensures Valid()
      ensures r == old(PipeResult(address, flags))
      ensures r == 0 ==>
        && Published(fileTask, fds, flags.cloexec, flags.nonblock, address - memory.base, old(files), files,
                     old(closeOnExec), closeOnExec, old(descriptions), descriptions, old(pipes), pipes,
                     old(memory.arena), memory.arena)
        && journal == old(journal)[FreePipe(old(pipes), 0) := []]
        && delivered == old(delivered)[FreePipe(old(pipes), 0) := []]
      ensures r != 0 ==>
        && files == old(files) && closeOnExec == old(closeOnExec) && descriptions == old(descriptions) && pipes == old(pipes)
        && journal == old(journal) && delivered == old(delivered) && memory.arena == old(memory.arena)
    {
      hide TablesOk, TransfersOk, Store32, FreeFd, FreeDescription, FreePipe;
      if flags.unknown { return -EINVAL; }
      if !memory.UserRange(address, 8) { return -EFAULT; }
      var a := LowestFd(0);
      if a < 0 { return -EMFILE; }
      var b := LowestFd(a + 1);
      if b < 0 { return -EMFILE; }
      DescriptionsSuffice(a, b);
      var d0 := LowestDescription(0);
      var d1 := LowestDescription(d0 + 1);
      if d0 == |descriptions| || d1 == |descriptions| {
        assert false;
        return -ENFILE;
      }
      var p := LowestPipe();
      if p == |pipes| { return -ENFILE; }
      Publish(a, b, d0, d1, p, flags);
      memory.arena := Store32(Store32(memory.arena, address - memory.base, a), address - memory.base + 4, b);
      r := 0;
    }

    /** The commit point of create_pipe: both ends appear together, around an empty ring. */
    method Publish(a: nat, b: nat, d0: nat, d1: nat, p: nat, flags: PipeFlags)
      requires Valid() && a < b < fds && Current(a) !in files && Current(b) !in files
      requires d0 < d1 < |descriptions| && descriptions[d0].refs == 0 && descriptions[d1].refs == 0
      requires p < |pipes| && pipes[p].Idle()
      modifies `files, `closeOnExec, `descriptions, `pipes, `journal, `delivered
      ensures Valid()
      ensures files == old(files)[Current(a) := d0][Current(b) := d1]
      ensures closeOnExec == if flags.cloexec then old(closeOnExec) + {Current(a), Current(b)} else old(closeOnExec)
      ensures descriptions == old(descriptions)[d0 := OpenFile(1, ReadOnly, false, flags.nonblock, PipeEnd(p))]
                                               [d1 := OpenFile(1, WriteOnly, false, flags.nonblock, PipeEnd(p))]
      ensures pipes == old(pipes)[p := Pipe(1, 1, 0, 0, old(pipes)[p].data)]
      ensures |journal| == |delivered| == |pipes| && journal == old(journal)[p := []] && delivered == old(delivered)[p := []]
    {
      hide RefsExact, EndsExact, HistoriesOk, AllPendingOk, PipesOk, KindsOk, CellsOk;
      PipeSlot(p);
      var made := pipes[p].(head := 0, used := 0, readers := 1, writers := 1);
      var read := OpenFile(1, ReadOnly, false, flags.nonblock, PipeEnd(p));
      var write := OpenFile(1, WriteOnly, false, flags.nonblock, PipeEnd(p));
      PublishPipe(tasks, fds, files, descriptions, pipes, Current(a), Current(b), d0, d1, p, read, write, made);
      PublishState(pipeSize, files, descriptions, pipes, pending, journal, delivered,
                   Current(a), Current(b), d0, d1, p, read, write, made);
      pipes := pipes[p := made];
      descriptions := descriptions[d0 := read][d1 := write];
      files := files[Current(a) := d0][Current(b) := d1];
      closeOnExec := if flags.cloexec then closeOnExec + {Current(a), Current(b)} else closeOnExec;
      journal := journal[p := []];
      delivered := delivered[p := []];
    }

    /** pipe's answer, case by case. */
    lemma PipeResultMeans(address: nat, flags: PipeFlags)
      requires Valid()
      ensures var r := PipeResult(address, flags);
        var legal := memory.base <= address && address + 8 <= memory.base + memory.size;
        var two := exists a: nat, b: nat :: a < b < fds && Current(a) !in files && Current(b) !in files;
        var idle := exists p :: 0 <= p < |pipes| && pipes[p].readers == 0 && pipes[p].writers == 0;
        && (r == -22 <==> flags.unknown)
        && (r == -14 <==> !flags.unknown && !legal)
        && (r == -24 <==> !flags.unknown && legal && !two)
        && (r == -23 <==> !flags.unknown && legal && two && !idle)
        && (r == 0 <==> !flags.unknown && legal && two && idle)
    {
      hide TablesOk, TransfersOk;
      var a := FreeFd(files, fileTask, fds, 0);
      if a < fds {
        var b := FreeFd(files, fileTask, fds, a + 1);
        if b < fds {
          assert Current(a) !in files && Current(b) !in files;
        }
      }
    }

    lemma DescriptionsSuffice(a: nat, b: nat)
      requires Valid() && a < b < fds && Current(a) !in files && Current(b) !in files
      ensures FreeDescription(descriptions, 0) < |descriptions|
      ensures FreeDescription(descriptions, FreeDescription(descriptions, 0) + 1) < |descriptions|
    {
      TwoFreeDescriptions(tasks, fds, files, descriptions, fileTask, a, b);
    }

    lemma PipeSlot(p: nat)
      requires Valid() && p < |pipes|
      ensures pipes[p].Ok(pipeSize) && |journal| == |delivered| == |pipes|
    {
    }

    /** dup (with 0 for the minimum) and F_DUPFD: share the file of `fd` at the lowest free
        descriptor from `minimum` on. */
    method Duplicate(fd: nat, minimum: nat) returns (r: int)
      requires Valid()
      modifies `files, `closeOnExec, `descriptions
      ensures Valid()
      ensures var free := if minimum < fds then FreeFd(old(files), fileTask, fds, minimum) else fds;
        && r == (if Current(fd) !in old(files) then -EBADF else if minimum >= fds then -EINVAL else if free == fds then -EMFILE else free)
        && (r >= 0 ==> files == old(files)[Current(r) := old(files)[Current(fd)]] && Current(r) !in old(files))
      ensures r < 0 ==> files == old(files) && descriptions == old(descriptions)
      ensures closeOnExec == old(closeOnExec) && SameFiles(old(descriptions), descriptions)
    {
      hide TablesOk, TransfersOk;
      if Current(fd) !in files { return -EBADF; }
      if minimum >= fds { return -EINVAL; }
      r := LowestFd(minimum);
      if r < 0 { return; }
      LiveDescription(Current(fd));
      Share(Current(r), files[Current(fd)], false);
    }

    /** dup2: whatever `target` named is closed first, except that duplicating a
        descriptor onto itself does nothing. */
    method Dup2(fd: nat, target: nat) returns (r: int)
      requires Valid() && !pending[fileTask].active
      modifies `files, `closeOnExec, `descriptions, `pipes
      ensures Valid()
      ensures r == if Current(fd) !in old(files) || target >= fds then -EBADF else target
      ensures r < 0 || target == fd ==>
        files == old(files) && closeOnExec == old(closeOnExec) && descriptions == old(descriptions) && pipes == old(pipes)
      ensures r >= 0 && target != fd ==>
        && files == old(files)[Current(target) := old(files)[Current(fd)]]
        && closeOnExec == old(closeOnExec) - {Current(target)}
      ensures OnlyCounts(old(descriptions), old(pipes))
    {
      hide TablesOk, TransfersOk;
      if Current(fd) !in files { return -EBADF; }
      if target >= fds { return -EBADF; }
      r := target;
      if target == fd { return; }
      CellsInTable();
      var file := files[Current(fd)];
      if Current(target) in files {
        var closed := CloseFd(target);
      }
      LiveDescription(Current(fd));
      Share(Current(target), file, false);
      assert Current(target) !in closeOnExec by {
        assert old(closeOnExec) <= old(files).Keys;
      }
      assert closeOnExec == old(closeOnExec) - {Current(target)};
    }

    /** F_SETFD. */
    method SetDescriptorFlags(fd: nat, cloexec: bool) returns (r: int)
      requires Valid()
      modifies `closeOnExec
      ensures Valid()
      ensures r == if Current(fd) in files then 0 else -EBADF
      ensures closeOnExec == if r < 0 then old(closeOnExec)
                             else old(closeOnExec) - {Current(fd)} + if cloexec then {Current(fd)} else {}
    {
      hide TablesOk, TransfersOk;
      if Current(fd) !in files { return -EBADF; }
      closeOnExec := closeOnExec - {Current(fd)} + if cloexec then {Current(fd)} else {};
      r := 0;
    }

    /** What F_SETFL answers: no terminal can be made non-blocking. */
    ghost function SetResult(fd: nat, nonblock: bool, unknown: bool): (r: int)
      reads this
      ensures -EINVAL <= r <= 0
    {
      if Current(fd) !in files then -EBADF
      else if unknown || (nonblock && files[Current(fd)] < |descriptions| && descriptions[files[Current(fd)]].kind.Terminal?) then -EINVAL
      else 0
    }

    /** F_SETFL: only O_APPEND and O_NONBLOCK change, for every descriptor and task that
        shares the open file. */
    method SetFileFlags(fd: nat, append: bool, nonblock: bool, unknown: bool) returns (r: int)
      requires Valid()
      modifies `descriptions
      ensures Valid()
      ensures r == old(SetResult(fd, nonblock, unknown))
      ensures descriptions == if r < 0 then old(descriptions) else
                old(descriptions)[files[Current(fd)] := old(descriptions)[files[Current(fd)]].(append := append, nonblock := nonblock)]
    {
      hide HistoriesOk, PipesOk, PipeIo.CursorOk;
      if Current(fd) !in files { return -EBADF; }
      if unknown { return -EINVAL; }
      var d := files[Current(fd)];
      if descriptions[d].kind.Terminal? && nonblock { return -EINVAL; }
      SameEnds(descriptions, pipes, d, descriptions[d].(append := append, nonblock := nonblock));
      descriptions := descriptions[d := descriptions[d].(append := append, nonblock := nonblock)];
      r := 0;
    }

    /** The descriptor side of open: `early` stands for the errors found in the path and the
        flags, `outcome` for the file system's verdict afterwards (0, or the error to return).
        Running out of descriptions cannot happen. */
    method Open(access: Access, append: bool, nonblock: bool, cloexec: bool, directory: bool, early: int, outcome: int)
      returns (r: int)
      requires Valid() && early <= 0 && outcome <= 0
      modifies `files, `closeOnExec, `descriptions
      ensures Valid()
      ensures var free := FreeFd(old(files), fileTask, fds, 0);
        && r == (if early != 0 then early else if free == fds then -EMFILE else if outcome != 0 then outcome else free)
        && (r >= 0 ==>
              var d := FreeDescription(old(descriptions), 0);
              && d < |descriptions|
              && files == old(files)[Current(r) := d]
              && closeOnExec == (if cloexec then old(closeOnExec) + {Current(r)} else old(closeOnExec))
              && descriptions == old(descriptions)[d := OpenFile(1, access, append, nonblock, if directory then Directory else Regular)])
      ensures r < 0 ==> files == old(files) && closeOnExec == old(closeOnExec) && descriptions == old(descriptions)
    {
      hide HistoriesOk, PipesOk, PipeIo.CursorOk;
      if early != 0 { return early; }
      r := LowestFd(0);
      if r < 0 { return; }
      OneFreeDescription(tasks, fds, files, descriptions, fileTask, r);
      var d := LowestDescription(0);
      if d == |descriptions| {
        assert false;
        return -EMFILE;
      }
      if outcome != 0 { return outcome; }
      var file := OpenFile(1, access, append, nonblock, if directory then Directory else Regular);
      AddHolder(files, descriptions, Current(r), d, file);
      SameEnds(descriptions, pipes, d, file);
      DeadUnused(d);
      descriptions := descriptions[d := file];
      files := files[Current(r) := d];
      closeOnExec := if cloexec then closeOnExec + {Current(r)} else closeOnExec;
    }

    lemma DeadUnused(d: nat)
      requires Valid() && d < |descriptions| && descriptions[d].refs == 0
      ensures forall c :: c in files ==> files[c] != d
    {
      assert Holders(files, d) == {};
      forall c | c in files ensures files[c] != d {
        assert c !in Holders(files, d);
      }
    }

    /** The checks of pipe_transfer: the running total of lengths, or the first complaint. */
    method CheckVectors(vs: seq<IoVector>) returns (r: int)
      requires |memory.arena| == memory.size
      ensures var fault := VectorFault(memory.base, memory.size, vs, 0); r == if fault != 0 then fault else TotalLength(vs)
    {
      var length := 0;
      assert vs[..0] == [] && vs[0..] == vs;
      for i := 0 to |vs|
        invariant length == TotalLength(vs[..i]) <= INT_MAX
        invariant VectorFault(memory.base, memory.size, vs, 0) == VectorFault(memory.base, memory.size, vs[i..], length)
      {
        VectorFaultSuffix(memory.base, memory.size, vs, i);
        var v := vs[i];
        if v.length > INT_MAX - length { return -EINVAL; }
        if v.length > 0 && !memory.UserRange(v.address, v.length) { return -EFAULT; }
        length := length + v.length;
      }
      assert vs[..|vs|] == vs && vs[|vs|..] == [];
      r := length;
    }

    /** pipe_transfer: read, write, readv and writev on a pipe end. A refused request
        leaves everything but the task's own (inactive) transfer alone. */
    method PipeTransfer(fd: nat, address: nat, count: nat, writing: bool, vectored: bool) returns (outcome: Outcome)
      requires Valid() && |memory.arena| == memory.size && !pending[fileTask].active
      requires Current(fd) in files && descriptions[files[Current(fd)]].kind.PipeEnd?
      modifies `pipes, `pending, `journal, `delivered, memory`arena
      ensures Valid() && |memory.arena| == memory.size
      ensures pending == old(pending)[fileTask := pending[fileTask]]
      ensures pending[fileTask].active ==> VectorsInWindow(memory.base, memory.size, pending[fileTask].vectors)
      ensures match PipeRequest(descriptions[files[Current(fd)]], old(memory.arena), memory.base, address, count, writing, vectored)
        case Refused(error) =>
          && outcome == Done(error) && !pending[fileTask].active
          && pipes == old(pipes) && journal == old(journal) && delivered == old(delivered)
          && memory.arena == old(memory.arena)
        case Transfer(vs) =>
          var p := descriptions[files[Current(fd)]].kind.pipe;
          && p < |old(pipes)| == |pipes|
          && var io := PipeIo(true, writing, fd, vs, 0, 0, 0, TotalLength(vs));
          && var a := Side(io, old(pipes)[p], old(memory.arena), old(journal)[p], old(delivered)[p]);
          && var b := Side(pending[fileTask], pipes[p], memory.arena, journal[p], delivered[p]);
          && a.Ok(pipeSize, memory.base)
          && Resumed(pipeSize, memory.base, descriptions[files[Current(fd)]].nonblock, a, b, outcome)
          && pipes == old(pipes)[p := pipes[p]]
          && journal == old(journal)[p := journal[p]] && delivered == old(delivered)[p := delivered[p]]
    {
      hide TablesOk, TransfersOk, Resumed, Side.Ok, VectorFault, TotalLength;
      CellsInTable();
      PipeEndAccess(fd);
      var file := descriptions[files[Current(fd)]];
      if if writing then !file.Writes() else file.access == WriteOnly {
        return Done(-EBADF);
      }
      if vectored && count > IOV_MAX { return Done(-EINVAL); }
      if vectored && count > 0 && !memory.UserRange(address, 8 * count) { return Done(-EFAULT); }
      var vs := if !vectored then [IoVector(address, count)]
                else if count == 0 then []
                else VectorsAt(memory.arena, address - memory.base, count);
      var length := CheckVectors(vs);
      if length <= 0 {
        return Done(length);
      }
      var io := PipeIo(true, writing, fd, vs, 0, 0, 0, length);
      Begin(io);
      outcome := IoResume();
    }

    /** A checked request becomes the current task's pending transfer. */
    method Begin(io: PipeIo)
      requires Valid() && Current(io.fd) in files && files[Current(io.fd)] < |descriptions|
      requires descriptions[files[Current(io.fd)]].kind.PipeEnd? && descriptions[files[Current(io.fd)]].Writes() == io.writing
      requires io == PipeIo(true, io.writing, io.fd, io.vectors, 0, 0, 0, TotalLength(io.vectors))
      requires 0 < io.length <= INT_MAX
      modifies `pending
      ensures Valid() && pending == old(pending)[fileTask := io]
    {
      hide TablesOk, HistoriesOk, PipesOk;
      assert io.vectors[..0] == [];
      pending := pending[fileTask := io];
    }

    lemma Sizes()
      requires Valid()
      ensures 3 <= fds <= INT_MAX && 0 < pipeSize <= INT_MAX && fileTask < tasks
    {
    }

    lemma EndSlot(fd: nat)
      requires Valid() && Current(fd) in files && descriptions[files[Current(fd)]].kind.PipeEnd?
      ensures var p := descriptions[files[Current(fd)]].kind.pipe; p < |pipes| && |journal| == |delivered| == |pipes|
    {
    }

    lemma PipeEndAccess(fd: nat)
      requires Valid() && Current(fd) in files && descriptions[files[Current(fd)]].kind.PipeEnd?
      ensures descriptions[files[Current(fd)]].access != ReadWrite
    {
    }

    /** Every interleaving so far: what was accepted is what was delivered followed by
        the ring, and every write of at most a pipe's capacity is one whole chunk. */
    lemma Conservation(p: nat)
      requires Valid() && p < |pipes|
      ensures Joined(journal[p]) == delivered[p] + pipes[p].Contents()
      ensures forall i :: 0 <= i < |journal[p]| && journal[p][i].length <= pipeSize ==>
        journal[p][i].from == 0 && |journal[p][i].data| == journal[p][i].length
    {
    }

    /** A pipe looks closed from one side exactly when no descriptor of any task names
        the other: end-of-file and SIGPIPE cannot come early or late. */
    lemma OtherEndGone(p: nat, writer: bool)
      requires Valid() && p < |pipes|
      ensures (if writer then pipes[p].writers else pipes[p].readers) == 0 <==>
        forall c :: c in files ==>
          !(descriptions[files[c]].kind == PipeEnd(p) && (descriptions[files[c]].access == ReadOnly) != writer)
    {
      var ends := Ends(descriptions, p, writer);
      assert (if writer then pipes[p].writers else pipes[p].readers) == |ends|;
      forall c | c in files && descriptions[files[c]].kind == PipeEnd(p) && descriptions[files[c]].Writes() == writer
        ensures files[c] in ends
      {
        LiveDescription(c);
      }
      if ends != {} {
        var d :| d in ends;
        assert Holders(files, d) != {};
        var c :| c in Holders(files, d);
      }
    }
  }

  lemma TableHoldsThree(tasks: nat, fds: nat)
    requires tasks >= 1 && fds >= 3
    ensures tasks * fds >= 3
  {
    assert tasks * fds == fds + (tasks - 1) * fds;
  }
}
