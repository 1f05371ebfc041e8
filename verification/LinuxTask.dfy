/** linux_task.c: cooperative tasks sharing one arena, swapped against snapshots. */
module LinuxTask {
  import opened Bytes
  import opened PipeBytes
  import opened LinuxMemory
  import opened FileTables
  import opened LinuxSyscall
  import opened TaskTables
  import opened TaskRuns

  /** Where the launch stands: still in user mode, or back in the shell with a status. */
  datatype Launch = InUser | Shell(status: nat)

  class Kernel {
    const memory: Memory
    const files: Files

    var tasks: seq<Task>
    var snapshots: seq<seq<Byte>>
    var current: nat
    var nextPid: nat
    var rootStatus: nat
    var frame: Frame
    var cwd: string
    var launch: Launch

    ghost var start: seq<Private>
    ghost var trace: seq<Event>
    ghost var reaped: seq<Reaped>
    ghost var exited: map<nat, nat>
    ghost var parents: map<nat, nat>
    ghost var rounds: seq<Round>

    function Now(): Private
      reads this, memory
    {
      Private(memory.arena, frame, memory.Capture(), cwd)
    }

    ghost function W(): World
      reads this, memory
    {
      World(tasks, snapshots, nextPid, Now(), start, trace, reaped, exited, parents)
    }

    /** The files, or at the end of a launch the files as the scheduler last saw them. */
    ghost function Io(): FileState
      reads this, files
    {
      if launch == InUser || rounds == [] then files.State() else rounds[|rounds| - 1].io
    }

    /** What holds at every step of the scheduler; `busy` is the slot whose transfer is
        being resumed, or -1. */
    ghost predicate CoreBut(busy: int)
      reads this, memory, files
    {
      && files.memory == memory && files.Valid() && memory.Valid()
      && files.tasks == |tasks| == |snapshots| == |start| && current < |tasks|
      && launch == InUser && rootStatus == RootStatus(exited)
      && W().Ok(memory.size)
      && FilesLink(memory.size, tasks, files.files, files.pending, busy)
    }

    ghost predicate OnlyCurrentRuns()
      reads this, files
    {
      && files.fileTask == current < |tasks|
      && forall t :: 0 <= t < |tasks| ==> (tasks[t].state == Running <==> t == current)
    }

    /** At every return to user mode exactly the current task runs, on its own descriptors. */
    ghost predicate Valid()
      reads this, memory, files
    {
      CoreBut(-1) && OnlyCurrentRuns()
    }

    /** Between tasks: nobody runs. */
    ghost predicate Parked()
      reads this, memory, files
    {
      CoreBut(-1) && forall t :: 0 <= t < |tasks| ==> tasks[t].state != Running
    }

    /** linux_task_init, for a program already loaded in the arena. */
    constructor (table: Files, first: Frame, directory: string)
      requires table.Valid() && table.memory.Valid() && table.fileTask == 0
      requires forall c :: c in table.files ==> c.task == 0
      requires forall t :: 0 <= t < table.tasks ==> !table.pending[t].active
      ensures Valid() && files == table && memory == table.memory
      ensures current == 0 && nextPid == 2 && rootStatus == 0 && reaped == [] && exited == map[] && trace == [] && parents == map[1 := 0] && rounds == []
      ensures frame == first && cwd == directory
    {
      memory, files := table.memory, table;
      var blank := Task(Unused, 0, 0, 0, 0, 0, first, MemoryState(0, 0, 0), directory);
      var arena, state := table.memory.arena, table.memory.Capture();
      tasks := [blank.(state := Running, pid := 1)] + seq(table.tasks - 1, _ => blank);
      snapshots := seq(table.tasks, _ => arena);
      current, nextPid, rootStatus, frame, cwd, launch := 0, 2, 0, first, directory, InUser;
      start := seq(table.tasks, _ => Private(arena, first, state, directory));
      trace, reaped, exited, parents, rounds := [], [], map[], map[1 := 0], [];
      new;
      hide World.Ok, Files.Valid;
      InitialOk(memory.size, W());
    }

    /** save_current, after which the task may stop. */
    method StopCurrent(state: RunState, waitPid: int, waitStatus: nat)
      requires Valid() && state in {Runnable, Waiting}
      requires state == Waiting ==>
        && (exists s :: 0 <= s < |tasks| && Matches(tasks[current], tasks[s], waitPid))
        && (waitStatus != 0 ==> memory.UserRange(waitStatus, 4))
      modifies `tasks, `snapshots
      ensures Parked()
      ensures current < |old(tasks)| == |old(snapshots)|
      ensures W() == old(W()).Stopped(current, state, waitPid, waitStatus)
    {
      hide World.Ok, Files.Valid, Replay;
      ghost var before := W();
      StoppedOk(memory.size, before, current, state, waitPid, waitStatus, Now());
      tasks := tasks[current := tasks[current].(frame := frame, memory := memory.Capture(), cwd := cwd)];
      snapshots := snapshots[current := memory.arena];
      tasks := tasks[current := tasks[current].(state := state, waitPid := waitPid, waitStatus := waitStatus)];
      assert W() == before.Stopped(current, state, waitPid, waitStatus);
      LinkKept(memory.size, old(tasks), tasks, files.files, files.pending, -1, -1);
    }

    /** One delivery of wake_waiters: the status goes to the waiter's snapshot, the pid to
        its saved register, and the zombie's slot is freed. */
    method Deliver(i: nat, j: nat)
      requires Parked() && i < |tasks| && j < |tasks|
      requires tasks[i].state == Waiting && tasks[j].state == Zombie && Matches(tasks[i], tasks[j], tasks[i].waitPid)
      modifies `tasks, `snapshots, `trace, `reaped
      ensures Parked()
      ensures old(W()).Deliverable(i, j) && W() == old(W()).Delivered(i, j)
    {
      hide World.Ok, Files.Valid, Replay, Store32, Memory.Valid, RootStatus, FilesLink;
      ghost var before := W();
      DeliveredOk(memory.size, before, i, j);
      var t, z := tasks[i], tasks[j];
      var table := tasks[i := t.(state := Runnable, frame := t.frame.(eax := z.pid))][j := z.(state := Unused)];
      LinkKept(memory.size, tasks, table, files.files, files.pending, -1, -1);
      if t.waitStatus != 0 {
        snapshots := snapshots[i := Store32(snapshots[i], t.waitStatus - t.memory.base, z.status)];
      }
      tasks, reaped, trace := table, reaped + [Reaped(z.pid, t.pid, z.status)], trace + WaitEvents(i, t, z);
      assert W() == before.Delivered(i, j);
    }

    /** wake_waiters, in one pass over the slots. */
    method WakeWaiters()
      requires Parked()
      modifies `tasks, `snapshots, `trace, `reaped
      ensures Parked()
      ensures W() == old(W()).Woken(|old(tasks)|)
      ensures WokenFrom(old(tasks), tasks)
      ensures forall t :: 0 <= t < |tasks| ==> !Owed(tasks, t)
      ensures LeadsTo(old(W()), files.State(), W(), files.State())
    {
      hide CoreBut, Parked, WokenFrom, Owed, LeadsTo, World.Ok, World.WokenAt, Served, Files.State;
      ParkedCore();
      ghost var before, io := W(), files.State();
      for i := 0 to |tasks|
        invariant Parked() && |tasks| == |old(tasks)|
        invariant W() == before.Woken(i)
        invariant files.State() == io
      {
        ParkedCore();
        WokenFacts(memory.size, before, io, i);
        WakeSlot(before, io, i);
      }
      ParkedCore();
      WokenFacts(memory.size, before, io, |tasks|);
      ServedFacts(before, io, W());
    }

    /** One turn of the outer loop of wake_waiters. */
    method WakeSlot(ghost before: World, ghost io: FileState, i: nat)
      requires Parked() && i < |tasks| && Served(memory.size, before, io, W(), i)
      modifies `tasks, `snapshots, `trace, `reaped
      ensures Parked() && |tasks| == |old(tasks)|
      ensures W() == old(W()).WokenAt(i)
    {
      hide CoreBut, Parked, WokenFrom, Owed, LeadsTo, World.Ok, World.Delivered, World.Deliverable, Served;
      ghost var mid := W();
      WokenOne(memory.size, before, io, mid, i);
      if tasks[i].state != Waiting { return; }
      var j := FirstDead(i);
      if j < |tasks| {
        Deliver(i, j);
        SizeKept(mid, i, j);
      }
    }

    /** Its inner loop. */
    method FirstDead(i: nat) returns (j: nat)
      requires i < |tasks|
      ensures j == DeadChild(tasks, i, tasks[i].waitPid, 0)
    {
      j := 0;
      while j < |tasks| && !(tasks[j].state == Zombie && Matches(tasks[i], tasks[j], tasks[i].waitPid))
        invariant j <= |tasks| && DeadChild(tasks, i, tasks[i].waitPid, 0) == DeadChild(tasks, i, tasks[i].waitPid, j)
      {
        j := j + 1;
      }
    }

    lemma ServedFacts(before: World, io: FileState, after: World)
      requires Served(memory.size, before, io, after, |after.tasks|)
      ensures WokenFrom(before.tasks, after.tasks) && LeadsTo(before, io, after, io)
      ensures forall t :: 0 <= t < |after.tasks| ==> !Owed(after.tasks, t)
    {
      hide LeadsTo, World.Ok;
    }

    lemma SizeKept(w: World, i: nat, j: nat)
      requires w.Deliverable(i, j)
      ensures |w.Delivered(i, j).tasks| == |w.tasks|
    {
    }

    lemma TablesAlign(busy: int)
      requires CoreBut(busy)
      ensures files.Valid() && memory.Valid() && files.memory == memory && launch == InUser
      ensures files.tasks == |tasks| == |snapshots| == |start| == |files.pending| && current < |tasks|
      ensures rootStatus == RootStatus(exited)
      ensures nextPid <= INT_MAX && |tasks| > 0
      ensures forall t :: 0 <= t < |tasks| ==>
        (files.pending[t].active <==> tasks[t].state == IoWaiting || t == busy)
    {
    }

    /** What the scheduler sees when it chooses. */
    ghost function Sight(): Round
      reads this, memory, files
    {
      Round(current, W(), files.State())
    }

    /** The round-robin choice: the first slot after the current one that can run;
        the number of slots when there is none. */
    method Pick() returns (slot: nat)
      requires files.Valid() && current < |tasks| == files.tasks
      ensures slot <= |tasks| && Sight().Chosen(files.pipeSize, slot)
    {
      hide Files.Valid, FileState.CanGoOn;
      for step := 1 to |tasks| + 1
        invariant forall k :: 1 <= k < step ==> !Sight().Runs(files.pipeSize, Wrap(|tasks|, current, k))
      {
        WrapIsModulo(|tasks|, current, step);
        slot := (current + step) % |tasks|;
        assert slot == Wrap(|tasks|, current, step);
        if tasks[slot].state == Runnable { return; }
        if tasks[slot].state == IoWaiting {
          var ready := files.CheckReady(slot);
          if ready { return; }
        }
      }
      forall t | 0 <= t < |tasks| ensures !Sight().Runs(files.pipeSize, t) {
        EverySlotMet(|tasks|, current, t);
      }
      slot := |tasks|;
    }

    /** The end of a launch: only a task that is blocked for ever can be left over, and
        the launcher says so with status 125. */
    method Leave()
      requires Parked() && |rounds| > 0
      requires forall t :: 0 <= t < |tasks| ==> !Owed(tasks, t)
      requires rounds[|rounds| - 1] == Sight() && Sight().Chosen(files.pipeSize, |tasks|)
      modifies `launch, `rootStatus, files
      ensures Abandoned() && launch.Shell?
    {
      hide Files.Valid, World.Ok, FilesLink, StatusesOk, KinOk, RootStatus, FileState.CanGoOn;
      NobodyRuns();
      HistoryKept();
      for i := 0 to |tasks|
        invariant rootStatus == old(rootStatus)
        invariant forall t :: 0 <= t < i ==> !(tasks[t].state in {IoWaiting, Waiting})
      {
        if tasks[i].state == IoWaiting || tasks[i].state == Waiting {
          rootStatus := 125;
          break;
        }
      }
      assert rootStatus == if Blocked() then 125 else RootStatus(exited);
      CloseAll();
      launch := Shell(rootStatus);
    }

    /** The descriptors of every task go. */
    method CloseAll()
      requires files.Valid() && files.tasks == |tasks|
      modifies files
      ensures files.files == map[] && files.journal == old(files.journal) && files.delivered == old(files.delivered)
      ensures SamePipes(old(files.pipes), files.pipes)
    {
      hide Files.Valid;
      TablesAlignFiles();
      for i := 0 to |tasks|
        invariant files.Valid() && files.fileTask == old(files.fileTask)
        invariant files.journal == old(files.journal) && files.delivered == old(files.delivered)
        invariant SamePipes(old(files.pipes), files.pipes)
        invariant forall c :: c in files.files ==> i <= c.task < |tasks|
      {
        files.Exit(i);
      }
      assert files.files == map[];
    }

    lemma NobodyRuns()
      requires CoreBut(-1) && Sight().Chosen(files.pipeSize, |tasks|)
      requires forall t :: 0 <= t < |tasks| ==> tasks[t].state != Running
      ensures forall t :: 0 <= t < |tasks| ==>
        && tasks[t].state != Runnable && tasks[t].state != Running
        && (tasks[t].state == IoWaiting ==> !files.State().CanGoOn(files.pipeSize, t))
    {
      hide CoreBut, FileState.CanGoOn;
      forall t | 0 <= t < |tasks|
        ensures tasks[t].state != Runnable && (tasks[t].state == IoWaiting ==> !files.State().CanGoOn(files.pipeSize, t))
      {
        assert !Sight().Runs(files.pipeSize, t);
      }
    }

    lemma HistoryKept()
      requires CoreBut(-1)
      ensures |tasks| > 0 && tasks[0].state != Unused
      ensures StatusesOk(tasks, nextPid, reaped, exited) && KinOk(tasks, nextPid, reaped, parents)
      ensures tasks[0].state == Zombie ==> 1 in exited
    {
      hide Files.Valid, FilesLink;
      if tasks[0].state == Zombie {
        InitExited(memory.size, W());
      }
    }

    lemma TablesAlignFiles()
      requires files.Valid() && files.tasks == |tasks|
      ensures forall c :: c in files.files ==> c.task < |tasks|
    {
      files.CellsInTable();
    }

    ghost predicate Blocked()
      reads `tasks
    {
      exists t :: 0 <= t < |tasks| && tasks[t].state in {IoWaiting, Waiting}
    }

    /** Back in the shell: nobody could run, not even a task blocked on a pipe; nobody was owed
        a status, every descriptor is closed, what was in the pipes was left there, and the
        launch reports 125 if somebody was still blocked, or else the status init itself
        exited with. */
    ghost predicate Abandoned()
      reads this, files
    {
      && launch == Shell(if Blocked() then 125 else RootStatus(exited))
      && (!Blocked() ==> 1 in exited)
      && (forall t :: 0 <= t < |tasks| ==> tasks[t].state != Runnable && tasks[t].state != Running && !Owed(tasks, t))
      && |rounds| > 0 && tasks == rounds[|rounds| - 1].w.tasks
      && (forall t :: 0 <= t < |tasks| && tasks[t].state == IoWaiting ==> !rounds[|rounds| - 1].io.CanGoOn(files.pipeSize, t))
      && files.files == map[]
      && files.journal == rounds[|rounds| - 1].io.journal && files.delivered == rounds[|rounds| - 1].io.delivered
      && SamePipes(rounds[|rounds| - 1].io.pipes, files.pipes)
      && StatusesOk(tasks, nextPid, reaped, exited) && KinOk(tasks, nextPid, reaped, parents)
    }

    /** The address-space swap of schedule: slot `slot` runs on exactly what it left behind. */
    method SwitchTo(slot: nat)
      requires Parked() && slot < |tasks| && tasks[slot].state in {Runnable, IoWaiting}
      modifies `tasks, `current, `frame, `cwd, files`fileTask, memory
      ensures CoreBut(if old(tasks)[slot].state == IoWaiting then slot else -1) && OnlyCurrentRuns() && current == slot
      ensures slot < |old(tasks)| == |old(snapshots)| && W() == old(W()).Started(slot)
      ensures old(tasks)[slot].state == IoWaiting ==> files.pending[slot].active
      ensures files.State() == old(files.State())
      ensures Now() == old(Saved(tasks, snapshots, slot)) == Saved(tasks, snapshots, current)
    {
      hide World.Ok, Files.Valid, Replay, LinuxMemory.StateOk, Memory.Valid, CoreBut, OnlyCurrentRuns, Parked, RootStatus;
      ParkedCore();
      var task := tasks[slot];
      ghost var before, busy := W(), if task.state == IoWaiting then slot else -1;
      StartedOk(memory.size, before, slot);
      var table := tasks[slot := task.(state := Running)];
      LinkStarted(memory.size, tasks, table, files.files, files.pending, slot);
      memory.Load(snapshots[slot], task.memory);
      cwd, frame, current, tasks := task.cwd, task.frame, slot, table;
      SwitchFiles(slot);
      assert W() == before.Started(slot);
      CoreAgain(busy);
    }

    method SwitchFiles(slot: nat)
      requires files.Valid() && slot < files.tasks
      modifies files`fileTask
      ensures files.Valid() && files.fileTask == slot
      ensures files.State() == old(files.State())
    {
      files.Switch(slot);
    }

    /** What a call may rely on while its task runs. */
    lemma RunningFacts()
      requires Valid()
      ensures CoreBut(-1) && OnlyCurrentRuns()
      ensures files.memory == memory && files.Valid() && memory.Valid() && launch == InUser && files.fileTask == current
      ensures files.tasks == |tasks| == |snapshots| == |start| == |files.pending| && current < |tasks|
      ensures rootStatus == RootStatus(exited)
      ensures W().Ok(memory.size) && nextPid <= INT_MAX && |memory.arena| == memory.size
      ensures tasks[current].state == Running && !files.pending[current].active
      ensures forall t :: 0 <= t < |tasks| && t != current ==> tasks[t].state != Running
      ensures FilesLink(memory.size, tasks, files.files, files.pending, -1)
      ensures Replay(start, trace)[current] == Now()
    {
      hide Files.Valid, Replay;
      NowIs(memory.size, W(), current);
    }

    lemma StillValid()
      requires files.memory == memory && files.Valid() && memory.Valid() && launch == InUser && files.fileTask == current
      requires files.tasks == |tasks| == |snapshots| == |start| && current < |tasks|
      requires rootStatus == RootStatus(exited)
      requires W().Ok(memory.size)
      requires forall t :: 0 <= t < |tasks| ==> (tasks[t].state == Running <==> t == current)
      requires FilesLink(memory.size, tasks, files.files, files.pending, -1)
      ensures Valid()
    {
    }

    /** The running task's registers take a result; `received` accounts for what the call
        did to the arena, which held `bytes` before it. */
    method Complete(value: int, ghost bytes: seq<Byte>, ghost received: seq<Event>)
      requires files.memory == memory && files.Valid() && memory.Valid() && OnlyCurrentRuns()
      requires files.tasks == |tasks| == |snapshots| == |start| && launch == InUser
      requires rootStatus == RootStatus(exited)
      requires FilesLink(memory.size, tasks, files.files, files.pending, -1)
      requires -0x8000_0000 <= value < U32
      requires MachineBefore(bytes).Ok(memory.size)
      requires Replay(start, trace + received) == Replay(start, trace)[current := Now()]
      modifies `frame, `trace
      ensures Valid()
      ensures W() == old(W()).Answered(current, received, memory.arena, ToWord(value))
    {
      hide World.Ok, Files.Valid, Replay, Apply, FilesLink, Memory.Valid;
      ghost var before := MachineBefore(bytes);
      TookOk(memory.size, before, current, received, Now());
      ghost var mid := before.(trace := trace + received, now := Now());
      NowIs(memory.size, mid, current);
      ResultStep(start, trace + received, current, ToWord(value));
      frame := frame.(eax := ToWord(value));
      assert Replay(start, trace + received)[current := Now()] == Replay(start, trace + received + [Result(current, ToWord(value))]);
      TookOk(memory.size, mid, current, [Result(current, ToWord(value))], Now());
      trace := trace + received + [Result(current, ToWord(value))];
    }

    /** The call of linux_io_resume for the task just switched to, seen from its private
        machine: only bytes it asked for arrive in its memory. */
    method ResumeTransfer() returns (outcome: Outcome, ghost received: seq<Event>)
      requires CoreBut(current) && OnlyCurrentRuns() && Now() == Saved(tasks, snapshots, current)
      requires files.State().CanGoOn(files.pipeSize, current)
      modifies files, memory`arena
      ensures files.Valid() && files.fileTask == current && files.files == old(files.files)
      ensures memory.Valid() && |files.pending| == |tasks| && files.pending[current].active == outcome.Wait?
      ensures FilesLink(memory.size, if outcome.Wait? then tasks[current := tasks[current].(state := IoWaiting)] else tasks,
                        files.files, files.pending, -1)
      ensures AllUnwritten(files.pending) < old(AllUnwritten(files.pending))
      ensures outcome.Done? ==> -EAGAIN <= outcome.value <= INT_MAX
      ensures !outcome.Done? ==> memory.arena == old(memory.arena)
      ensures current < |start| && Replay(start, trace + received) == Replay(start, trace)[current := Now()]
      ensures Stepped(files.pipeSize, memory.base, old(files.State()), files.State(), current,
                      old(memory.arena), memory.arena, outcome, received)
    {
      hide World.Ok, Files.Valid, Replay, Apply, Resumed, Side.Ok, LinuxMemory.StateOk, ReceivedBytes;
      TablesAlign(current);
      files.PendingPipe(current);
      NowIs(memory.size, W(), current);
      ghost var p := files.FileOf(current).kind.pipe;
      ghost var nonblock := files.FileOf(current).nonblock;
      files.PipeSlot(p);
      ghost var a := Side(files.pending[current], files.pipes[p], memory.arena, files.journal[p], files.delivered[p]);
      ghost var table, waiting := files.files, files.pending;
      outcome := files.IoResume();
      ghost var b := Side(files.pending[current], files.pipes[p], memory.arena, files.journal[p], files.delivered[p]);
      StepSeen(files.pipeSize, memory.base, nonblock, a, b, outcome, waiting, start, trace, current);
      LinkResumed(memory.size, tasks, table, waiting, current, b.io);
      received := ReceivedBytes(current, a, b);
    }

    /** The tail of schedule for a task that was blocked on a pipe and can now go on:
        it finishes its call, dies of SIGPIPE (left to the caller), or sleeps again. */
    method ResumePipe() returns (outcome: Outcome, ghost received: seq<Event>)
      requires CoreBut(current) && OnlyCurrentRuns() && Now() == Saved(tasks, snapshots, current)
      requires files.State().CanGoOn(files.pipeSize, current)
      modifies `frame, `trace, `tasks, files, memory`arena
      ensures if outcome.Wait? then Parked() else Valid()
      ensures AllUnwritten(files.pending) < old(AllUnwritten(files.pending))
      ensures Stepped(files.pipeSize, memory.base, old(files.State()), files.State(), current,
                      old(memory.arena), memory.arena, outcome, received)
      ensures !outcome.Done? ==> received == []
      ensures outcome.Wait? ==> W() == old(W()).(tasks := old(tasks)[current := old(tasks)[current].(state := IoWaiting)])
      ensures outcome.SigPipe? ==> W() == old(W())
      ensures outcome.Done? ==> -EAGAIN <= outcome.value <= INT_MAX
      ensures outcome.Done? ==> W() == old(W()).Answered(current, received, memory.arena, ToWord(outcome.value))
    {
      hide World.Ok, Files.Valid, Replay, FilesLink, Stepped, Files.State;
      TablesAlign(current);
      ghost var before, bytes := W(), memory.arena;
      SleptOk(memory.size, before, current, IoWaiting, Now());
      ghost var io := files.State();
      outcome, received := ResumeTransfer();
      StepAnswered(io, bytes, outcome, received);
      match outcome {
        case Wait => tasks := tasks[current := tasks[current].(state := IoWaiting)];
        case SigPipe =>
        case Done(value) => Complete(value, bytes, received);
      }
    }

    lemma StepAnswered(io: FileState, bytes: seq<Byte>, outcome: Outcome, received: seq<Event>)
      requires Stepped(files.pipeSize, memory.base, io, files.State(), current, bytes, memory.arena, outcome, received)
      ensures !outcome.Done? ==> received == []
    {
      hide Stepped;
      SteppedMoves(files.pipeSize, memory.base, io, files.State(), current, bytes, memory.arena, outcome, received);
    }

    /** The state as it was when the arena still held `bytes`. */
    ghost function MachineBefore(bytes: seq<Byte>): World
      reads this, memory
    {
      W().(now := Now().(memory := bytes))
    }

    /** The first half of exit_task: the task becomes a zombie holding its status, its
        children pass to init, its descriptors close. */
    method Die(status: nat)
      requires Valid() && status < 0x1_0000
      modifies `tasks, `rootStatus, `exited, `parents, files
      ensures Parked()
      ensures current < |old(tasks)| && W() == old(W()).Died(current, status)
      ensures files.files == WithoutTask(old(files.files), current)
      ensures LeadsTo(old(W()), old(files.State()), W(), files.State())
    {
      hide World.Ok, Files.Valid, FilesLink, Killed, Orphaned, Reparented, RootStatus, ShellStatus, LeadsTo;
      TablesAlign(-1);
      ghost var before, io := W(), files.State();
      DiedRoot(memory.size, before, current, status);
      DiedOk(memory.size, before, current, status, Now());
      LinkDied(memory.size, tasks, files.files, files.pending, current, status,
               files.pending[current := files.pending[current].(active := false)]);
      Bury(status);
      files.Exit(current);
      KilledIs(before.tasks, current, status);
      LeadsToDied(memory.size, before, io, current, status, files.State());
    }

    /** Its effect on the task table. */
    method Bury(status: nat)
      requires current < |tasks|
      modifies `tasks, `rootStatus, `exited, `parents
      ensures current < |old(tasks)| && W() == old(W()).Died(current, status)
      ensures rootStatus == if current == 0 then ShellStatus(status) else old(rootStatus)
    {
      hide Killed, Orphaned, Reparented, ShellStatus;
      ghost var before := W();
      tasks := tasks[current := tasks[current].(status := status, state := Zombie)];
      if current == 0 {
        rootStatus := ShellStatus(status);
      }
      Disown();
      KilledIs(before.tasks, current, status);
      exited, parents := exited[before.tasks[current].pid := status], Reparented(parents, tasks);
      assert W() == before.Died(current, status);
    }

    /** The reparenting loop of exit_task. */
    method Disown()
      requires current < |tasks|
      modifies `tasks
      ensures tasks == Orphaned(old(tasks), current, |old(tasks)|)
    {
      hide Orphaned;
      ghost var mid := tasks;
      OrphanNone(mid, current);
      for i := 1 to |tasks|
        invariant |tasks| == |mid| && tasks == Orphaned(mid, current, i)
      {
        OrphanStep(mid, current, i);
        if tasks[i].state != Unused && tasks[i].parent == tasks[current].pid {
          tasks := tasks[i := tasks[i].(parent := if tasks[0].state != Zombie then 1 else 0)];
        }
      }
    }

    lemma KilledIs(table: seq<Task>, c: nat, status: nat)
      requires c < |table|
      ensures Killed(table, c, status) == Orphaned(table[c := table[c].(status := status, state := Zombie)], c, |table|)
      ensures forall t :: 0 <= t < |table| && table[t].state != Running ==> Killed(table, c, status)[t].state != Running
      ensures Killed(table, c, status)[c].state == Zombie
    {
    }

    lemma CandidateFacts(slot: nat)
      requires CoreBut(-1) && slot < |tasks| && Sight().Chosen(files.pipeSize, slot)
      ensures tasks[slot].state in {Runnable, IoWaiting}
      ensures tasks[slot].state == IoWaiting ==> files.State().CanGoOn(files.pipeSize, slot)
    {
      hide CoreBut, FileState.CanGoOn;
    }

    /** The slot the scheduler settled on, or the number of slots. */
    ghost function Final(): nat
      reads this
    {
      if launch == InUser then current else |tasks|
    }

    /** Either a task runs in user mode, the one chosen last and as it was chosen, or the launch
        is over; and this continues what was before, and the last choice, without any other task
        having run. */
    ghost predicate Arrived(before: World, io: FileState)
      reads this, memory, files
    {
      && LeadsTo(before, io, W(), Io()) && |rounds| > 0 && FollowsLast()
      && if launch == InUser then
           && Valid() && current < |rounds[|rounds| - 1].w.tasks|
           && tasks == rounds[|rounds| - 1].w.tasks[current := rounds[|rounds| - 1].w.tasks[current].(state := Running)]
         else Abandoned()
    }

    ghost predicate FollowsLast()
      requires |rounds| > 0
      reads this, memory, files
    {
      LeadsTo(rounds[|rounds| - 1].w, rounds[|rounds| - 1].io, W(), Io())
    }

    /** Where schedule leaves the machine, having started after slot `at` when `earlier` were
        the choices made so far: each choice was the first task in turn that could run. */
    ghost predicate Scheduled(before: World, io: FileState, at: nat, earlier: seq<Round>)
      reads this, memory, files
    {
      Arrived(before, io) && earlier <= rounds && RoundsOk(files.pipeSize, before, io, rounds, |earlier|, at, Final())
    }

    /** Reaching such a point from a later one. */
    lemma ArrivedSince(before: World, io: FileState, mid: World, between: FileState)
      requires Arrived(mid, between) && LeadsTo(before, io, mid, between)
      ensures Arrived(before, io)
    {
      hide Valid, Abandoned, LeadsTo;
      LeadsToTrans(before, io, mid, between, W(), Io());
    }

    lemma ScheduledSince(before: World, io: FileState, mid: World, between: FileState, at: nat, earlier: seq<Round>)
      requires Scheduled(mid, between, at, earlier) && LeadsTo(before, io, mid, between)
      ensures Scheduled(before, io, at, earlier)
    {
      hide Arrived, LeadsTo, RoundsOk;
      ArrivedSince(before, io, mid, between);
      RoundsSince(files.pipeSize, before, io, mid, between, rounds, |earlier|, at, Final());
    }

    /** What was recorded of an exit stays recorded. */
    lemma StaysExited(before: World, io: FileState, at: nat, earlier: seq<Round>, pid: nat)
      requires Scheduled(before, io, at, earlier) && pid in before.exited
      ensures pid in exited && exited[pid] == before.exited[pid]
    {
      hide Valid, Abandoned, RoundsOk, AllAsked, Drained, Accepted, Steady, SlotsFollow, KinFollow;
    }

    lemma ParkedCore()
      requires Parked()
      ensures CoreBut(-1) && files.Valid() && memory.Valid() && files.memory == memory && launch == InUser
      ensures files.tasks == |tasks| == |files.pending| && current < |tasks| && W().Ok(memory.size)
      ensures |tasks| == |snapshots| == |start| && rootStatus == RootStatus(exited)
      ensures FilesLink(memory.size, tasks, files.files, files.pending, -1)
      ensures forall t :: 0 <= t < |tasks| ==> tasks[t].state != Running
    {
    }

    lemma CoreAgain(busy: int)
      requires files.memory == memory && files.Valid() && memory.Valid() && launch == InUser && files.fileTask == current
      requires files.tasks == |tasks| == |snapshots| == |start| && current < |tasks|
      requires rootStatus == RootStatus(exited)
      requires W().Ok(memory.size)
      requires forall t :: 0 <= t < |tasks| ==> (tasks[t].state == Running <==> t == current)
      requires FilesLink(memory.size, tasks, files.files, files.pending, busy)
      ensures CoreBut(busy) && OnlyCurrentRuns()
    {
    }

    lemma RunningIsValid()
      requires CoreBut(-1) && OnlyCurrentRuns()
      ensures Valid() && launch == InUser
    {
    }

    /** schedule: wake waiters, then run the next task that can run, or end the launch.
        Terminates together with exit_task: every round kills a task or moves bytes. */
    method Schedule()
      requires Parked()
      modifies this, files, memory
      ensures Scheduled(old(W()), old(files.State()), old(current), old(rounds))
      decreases LiveCount(tasks), AllUnwritten(files.pending), 3
    {
      hide CoreBut, OnlyCurrentRuns, World.Ok, Files.Valid, WokenFrom, Abandoned, Parked, Valid, LiveSlots, AllUnwritten,
           LeadsTo, Arrived, RoundsOk, Round.Chosen, FileState.CanGoOn, Files.State, Tried;
      ParkedCore();
      ghost var io := files.State();
      WakeWaiters();
      WokenLive(old(tasks), tasks);
      Look();
      ghost var woken := W();
      Dispatch();
      ArrivedSince(old(W()), io, woken, io);
      RoundsSince(files.pipeSize, old(W()), io, woken, io, rounds, |old(rounds)|, old(current), Final());
    }

    /** The choice, and the switch to the chosen task. */
    method Dispatch()
      requires Parked() && |rounds| > 0 && rounds[|rounds| - 1] == Sight()
      requires forall t :: 0 <= t < |tasks| ==> !Owed(tasks, t)
      modifies this, files, memory
      ensures Arrived(old(W()), old(files.State()))
      ensures 0 < |old(rounds)| && old(rounds) <= rounds
      ensures RoundsOk(files.pipeSize, old(W()), old(files.State()), rounds, |old(rounds)| - 1, old(current), Final())
      decreases LiveCount(tasks), AllUnwritten(files.pending), 2
    {
      hide CoreBut, OnlyCurrentRuns, World.Ok, Files.Valid, Abandoned, Parked, Valid, LiveSlots, AllUnwritten, Owed,
           LeadsTo, Round.Chosen, FileState.CanGoOn, Files.State, Arrived, RoundsOk, Round.Quiet;
      ParkedCore();
      LookedQuiet();
      var slot := Pick();
      if slot == |tasks| {
        ghost var before, io := W(), files.State();
        Leave();
        LeadsToQuiet(before, io, W());
        ArrivedOver(before, io);
        ChosenLast(rounds[..|rounds| - 1], rounds[|rounds| - 1], slot);
        return;
      }
      CandidateFacts(slot);
      RunSlot(slot);
    }

    lemma LookedQuiet()
      requires Parked() && forall t :: 0 <= t < |tasks| ==> !Owed(tasks, t)
      ensures Sight().Quiet()
    {
      hide CoreBut, Owed;
    }

    lemma ArrivedOver(before: World, io: FileState)
      requires Abandoned() && launch.Shell? && LeadsTo(before, io, W(), Io())
      requires |rounds| > 0 && rounds[|rounds| - 1].w == before && rounds[|rounds| - 1].io == io
      ensures Arrived(before, io)
    {
      hide Abandoned, LeadsTo;
    }

    /** The body of the loop of schedule, for the slot it found. */
    method RunSlot(slot: nat)
      requires Parked() && |rounds| > 0 && rounds[|rounds| - 1] == Sight() && Sight().Quiet()
      requires slot < |tasks| && tasks[slot].state in {Runnable, IoWaiting} && Sight().Chosen(files.pipeSize, slot)
      requires tasks[slot].state == IoWaiting ==> files.State().CanGoOn(files.pipeSize, slot)
      modifies this, files, memory
      ensures Arrived(old(W()), old(files.State()))
      ensures 0 < |old(rounds)| && old(rounds) <= rounds
      ensures RoundsOk(files.pipeSize, old(W()), old(files.State()), rounds, |old(rounds)| - 1, old(current), Final())
      decreases LiveCount(tasks), AllUnwritten(files.pending), 1
    {
      hide CoreBut, OnlyCurrentRuns, World.Ok, Files.Valid, Abandoned, Parked, Valid, LiveSlots, AllUnwritten,
           LeadsTo, Round.Chosen, FileState.CanGoOn, Files.State, Arrived, RoundsOk, Round.Quiet;
      ParkedCore();
      ghost var parked, io, round, earlier := W(), files.State(), Sight(), rounds[..|rounds| - 1];
      var blocked := tasks[slot].state == IoWaiting;
      SameStateLive(tasks, slot, Running);
      SwitchTo(slot);
      ghost var asleep := W().(tasks := parked.tasks);
      LeadsToQuiet(parked, io, asleep);
      if blocked {
        Continue();
        ArrivedSince(parked, io, asleep, io);
        GoneOn(earlier, round, slot, asleep, io);
      } else {
        LeadsToQuiet(parked, io, W());
        RunningIsValid();
        ArrivedNow(parked, io);
        ChosenLast(earlier, round, slot);
      }
    }

    lemma ChosenLast(earlier: seq<Round>, round: Round, slot: nat)
      requires rounds == earlier + [round] && round.Chosen(files.pipeSize, slot) && round.Quiet()
      ensures RoundsOk(files.pipeSize, round.w, round.io, rounds, |earlier|, round.at, slot)
    {
      hide Round.Chosen, Round.Quiet, LeadsTo;
      LeadsToItself(round.w, round.io);
    }

    /** The scheduler looks round. */
    ghost method Look()
      requires Parked()
      modifies `rounds
      ensures Parked() && W() == old(W())
      ensures rounds == old(rounds) + [Sight()]
    {
      hide World.Ok, Files.Valid, Memory.Valid, FilesLink, RootStatus;
      rounds := rounds + [Sight()];
    }

    /** The choice of `slot`, and those that followed if it could not finish. */
    lemma GoneOn(earlier: seq<Round>, round: Round, slot: nat, asleep: World, io: FileState)
      requires earlier + [round] <= rounds && round.Quiet() && round.Chosen(files.pipeSize, slot)
      requires slot < |round.w.tasks| && round.w.tasks[slot].state == IoWaiting && LeadsTo(round.w, round.io, asleep, io)
      requires if earlier + [round] == rounds then Final() == slot
               else RoundsOk(files.pipeSize, asleep, io, rounds, |earlier| + 1, slot, Final())
      ensures RoundsOk(files.pipeSize, round.w, round.io, rounds, |earlier|, round.at, Final())
    {
      hide Round.Chosen, Round.Quiet, LeadsTo, RoundsOk;
      if earlier + [round] != rounds {
        RoundsMore(files.pipeSize, asleep, io, rounds, |earlier|, Final(), slot);
      } else {
        ChosenLast(earlier, round, slot);
      }
    }

    /** The tail of schedule for a task that was blocked on a pipe and can now go on. */
    method Continue()
      requires CoreBut(current) && OnlyCurrentRuns() && Now() == Saved(tasks, snapshots, current)
      requires files.State().CanGoOn(files.pipeSize, current)
      requires |rounds| > 0 && rounds[|rounds| - 1].w.tasks == tasks[current := tasks[current].(state := IoWaiting)]
      requires LeadsTo(rounds[|rounds| - 1].w, rounds[|rounds| - 1].io, Asleep(), files.State())
      modifies this, files, memory
      ensures old(rounds) <= rounds && Arrived(old(Asleep()), old(files.State()))
      ensures if rounds == old(rounds) then launch == InUser && current == old(current)
              else RoundsOk(files.pipeSize, old(Asleep()), old(files.State()), rounds, |old(rounds)|, old(current), Final())
      decreases LiveCount(tasks), AllUnwritten(files.pending), 0
    {
      hide CoreBut, OnlyCurrentRuns, World.Ok, Files.Valid, Abandoned, Parked, Valid, LiveSlots, AllUnwritten,
           Arrived, LeadsTo, FileState.CanGoOn, Files.State, Stepped, Moves, Round.Chosen, Round.Quiet, Tried;
      TablesAlign(current);
      TheRunning();
      ghost var before, io, bytes := Asleep(), files.State(), memory.arena;
      SameStateLive(tasks, current, IoWaiting);
      var outcome;
      ghost var received;
      outcome, received := ResumePipe();
      ghost var mid, between := W(), files.State();
      SteppedMoves(files.pipeSize, memory.base, io, between, current, bytes, memory.arena, outcome, received);
      LeadsToResumed(before, io, mid, between, current, outcome, received);
      match outcome {
        case Wait =>
          Schedule();
          ScheduledSince(before, io, mid, between, old(current), old(rounds));
        case SigPipe =>
          ExitTask(SIGPIPE);
          ScheduledSince(before, io, mid, between, old(current), old(rounds));
        case Done(value) =>
          LeadsToTrans(rounds[|rounds| - 1].w, rounds[|rounds| - 1].io, before, io, mid, between);
          RunningFacts();
          ArrivedNow(before, io);
      }
    }

    /** The world with the running task still shown as blocked. */
    ghost function Asleep(): World
      reads this, memory
    {
      if current < |tasks| then W().(tasks := tasks[current := tasks[current].(state := IoWaiting)]) else W()
    }

    lemma TheRunning()
      requires OnlyCurrentRuns()
      ensures current < |tasks| && tasks[current].state == Running
      ensures forall t :: 0 <= t < |tasks| && t != current ==> tasks[t].state != Running
    {
    }

    lemma ArrivedNow(before: World, io: FileState)
      requires Valid() && launch == InUser && LeadsTo(before, io, W(), files.State())
      requires |rounds| > 0 && current < |rounds[|rounds| - 1].w.tasks|
      requires LeadsTo(rounds[|rounds| - 1].w, rounds[|rounds| - 1].io, W(), files.State())
      requires tasks == rounds[|rounds| - 1].w.tasks[current := rounds[|rounds| - 1].w.tasks[current].(state := Running)]
      ensures Arrived(before, io)
    {
      hide Valid, LeadsTo;
    }

    /** exit_task, also entered for a fault or a broken pipe: the status of the dying task
        is recorded, for good. */
    method ExitTask(status: nat)
      requires Valid() && status < 0x1_0000
      modifies this, files, memory
      ensures Scheduled(old(W()), old(files.State()), old(current), old(rounds))
      ensures old(current) < |old(tasks)|
      ensures old(tasks[current].pid) in exited && exited[old(tasks[current].pid)] == status
      decreases LiveCount(tasks), AllUnwritten(files.pending), 4
    {
      hide CoreBut, World.Ok, Files.Valid, Abandoned, Killed, Valid, OnlyCurrentRuns, Parked, LiveSlots, AllUnwritten,
           Scheduled, LeadsTo, Files.State, Reparented;
      RunningFacts();
      KilledLive(tasks, current, status);
      ghost var pid := tasks[current].pid;
      Die(status);
      ghost var dead, io := W(), files.State();
      Schedule();
      StaysExited(dead, io, old(current), old(rounds), pid);
      ScheduledSince(old(W()), old(files.State()), dead, io, old(current), old(rounds));
    }

    // -------------------------------------------------------------- system calls

    /** Ring 3 between two system calls, and calls that concern nobody but the caller
        (brk, chdir, getpid): any change to the running machine, and to nothing else. */
    method UserRuns(now: Private)
      requires Valid() && |now.memory| == memory.size && LinuxMemory.StateOk(memory.size, now.state)
      modifies `frame, `cwd, `trace, memory
      ensures Valid()
      ensures W() == old(W()).(now := now, trace := old(trace) + [Ran(current, now)])
    {
      hide World.Ok, Files.Valid, Replay, FilesLink, Valid, CoreBut, OnlyCurrentRuns;
      RunningFacts();
      RanStep(start, trace, current, now);
      TookOk(memory.size, W(), current, [Ran(current, now)], now);
      memory.Load(now.memory, now.state);
      frame, cwd, trace := now.frame, now.cwd, trace + [Ran(current, now)];
      StillValid();
    }

    /** Leave a result in the caller's registers. */
    method Return(value: int)
      requires Valid() && -0x8000_0000 <= value < U32
      modifies `frame, `trace
      ensures Valid()
      ensures W() == old(W()).Answered(current, [], memory.arena, ToWord(value))
    {
      hide World.Ok, Files.Valid, Replay, FilesLink, Valid, CoreBut;
      RunningFacts();
      assert trace + [] == trace;
      assert Replay(start, trace)[current := Now()] == Replay(start, trace);
      Complete(value, memory.arena, []);
    }

    /** fork: the child runs first, on the arena; the parent waits in its snapshot. */
    method Fork()
      requires Valid()
      modifies this, files
      ensures Valid()
      ensures var child := FreeSlot(old(tasks), 0);
        if child == |old(tasks)| || old(nextPid) == 0x7fff_ffff then
          && W() == old(W()).Answered(current, [], memory.arena, 0x1_0000_0000 - 11)
          && current == old(current) && files.files == old(files.files)
        else
          && W() == Forked(old(W()), old(current), child) && current == child
          && files.files == WithCopies(old(files.files), old(current), child, files.fds)
    {
      hide World.Ok, Files.Valid, Replay, FilesLink, WithCopies, Valid, CoreBut, OnlyCurrentRuns;
      RunningFacts();
      var child := 0;
      while child < |tasks| && tasks[child].state != Unused
        invariant child <= |tasks| && FreeSlot(tasks, 0) == FreeSlot(tasks, child)
      {
        child := child + 1;
      }
      if child == |tasks| || nextPid == INT_MAX {
        Return(-EAGAIN);
        return;
      }
      ghost var before := W();
      ForkedOk(memory.size, before, current, child);
      LinkForked(memory.size, tasks, files.files, files.pending, current, child, files.fds, Forked(before, current, child).tasks);
      Clone(child, Forked(before, current, child));
    }

    method ForkFiles(child: nat)
      requires files.Valid() && current < files.tasks && child < files.tasks && child != current
      requires forall cell :: cell in files.files ==> cell.task != child
      modifies files
      ensures files.Valid() && files.fileTask == child
      ensures files.files == WithCopies(old(files.files), current, child, files.fds)
      ensures files.pending == old(files.pending)[child := old(files.pending)[child].(active := false)]
    {
      hide Files.Valid, WithCopies;
      files.Fork(current, child);
      files.Switch(child);
    }

    /** The part of fork that cannot fail. */
    method Clone(child: nat, ghost made: World)
      requires Valid() && child < |tasks| && tasks[child].state == Unused && nextPid < INT_MAX
      requires made == Forked(W(), current, child) && made.Ok(memory.size)
      requires forall cell :: cell in files.files ==> cell.task != child
      requires FilesLink(memory.size, made.tasks, WithCopies(files.files, current, child, files.fds),
                         files.pending[child := files.pending[child].(active := false)], -1)
      modifies this, files
      ensures Valid() && W() == made && current == child
      ensures files.files == WithCopies(old(files.files), old(current), child, files.fds)
    {
      hide World.Ok, Files.Valid, Replay, FilesLink, WithCopies, Memory.Valid, Valid, CoreBut, OnlyCurrentRuns;
      RunningFacts();
      ForkFiles(child);
      CloneTables(child);
      assert W() == made;
      StillValid();
    }

    /** The parent's machine stays in its slot; the child goes on with it. */
    method CloneTables(child: nat)
      requires current < |tasks| == |snapshots| && child < |tasks| && nextPid < INT_MAX
      modifies this
      ensures W() == Forked(old(W()), old(current), child) && current == child
      ensures rootStatus == old(rootStatus) && launch == old(launch)
    {
      ghost var made := Forked(W(), current, child);
      var parent, pid := current, nextPid;
      var kept := tasks[parent].(frame := frame.(eax := pid), memory := memory.Capture(), cwd := cwd, state := Runnable);
      var born := Task(Running, pid, kept.pid, 0, 0, 0, Frame(0, 0, 0, 0, []), MemoryState(0, 0, 0), "");
      nextPid, frame, current, snapshots, tasks, trace, parents :=
        pid + 1, frame.(eax := 0), child, snapshots[parent := memory.arena], tasks[parent := kept][child := born],
        trace + [Cloned(child, parent), Result(parent, pid), Result(child, 0)], parents[pid := kept.pid];
      assert tasks == made.tasks && Now() == made.now;
    }

    /** sched_yield. */
    method Yield()
      requires Valid()
      modifies this, files, memory
      ensures old(current) < |old(tasks)| == |old(snapshots)|
      ensures Scheduled(old(W()).Answered(old(current), [], old(memory.arena), 0)
                          .Stopped(old(current), Runnable, old(tasks[current].waitPid), old(tasks[current].waitStatus)),
                        old(files.State()), old(current), old(rounds))
    {
      hide World.Ok, Files.Valid, Replay, FilesLink, Valid, CoreBut, OnlyCurrentRuns, Scheduled, Parked, LeadsTo, Files.State;
      RunningFacts();
      Return(0);
      RunningFacts();
      StopCurrent(Runnable, tasks[current].waitPid, tasks[current].waitStatus);
      Schedule();
    }

    /** A running parent takes the status of a dead child: into its memory if it asked
        for it, and into the log. */
    method Collect(j: nat, address: nat)
      requires Valid() && j < |tasks| && tasks[j].state == Zombie
      requires Matches(tasks[current], tasks[j], ToInt(frame.ebx))
      requires address != 0 ==> memory.UserRange(address, 4)
      modifies `tasks, `trace, `reaped, `frame, memory`arena
      ensures Valid()
      ensures old(W()).Collectable(j, address)
      ensures W() == old(W()).Collected(current, j, address)
      ensures TookStatus(old(reaped), old(tasks[current].pid), Signed(old(frame.ebx)), address)
    {
      hide World.Ok, Files.Valid, Replay, Apply, Store32, Load32, FilesLink, Valid, CoreBut;
      RunningFacts();
      ghost var before, bytes := W(), memory.arena;
      ReapedOk(memory.size, before, current, j, ToInt(frame.ebx));
      CollectedReplay(memory.size, before, current, j, address);
      LinkReaped(memory.size, tasks, files.files, files.pending, j);
      var z := tasks[j];
      ghost var events := if address != 0 then [StatusWritten(current, address, z.status)] else [];
      if address != 0 {
        memory.arena := Store32(memory.arena, address - memory.base, z.status);
      }
      tasks, reaped := tasks[j := z.(state := Unused)], reaped + [Reaped(z.pid, tasks[current].pid, z.status)];
      Complete(z.pid, bytes, events);
      CollectedMeans(memory.size, before, current, j, address, Signed(before.now.frame.ebx));
    }

    /** The result is the pid of a child of `parent` by the record, the one asked for if one was;
        its status is in the log, as recorded at its death, and in memory at `address` unless that is 0. */
    ghost predicate TookStatus(earlier: seq<Reaped>, parent: nat, pid: int, address: nat)
      reads this, memory
    {
      && (pid <= 0 || frame.eax == pid)
      && frame.eax in parents && parents[frame.eax] == parent && frame.eax in exited
      && reaped == earlier + [Reaped(frame.eax, parent, exited[frame.eax])]
      && (address != 0 ==>
            && memory.base <= address && address + 4 <= memory.base + |memory.arena|
            && Load32(memory.arena, address - memory.base) == exited[frame.eax])
    }

    /** waitpid: collect a dead child at once, refuse, or block until one dies. */
    method WaitPid()
      requires Valid()
      modifies this, files, memory
      ensures match WaitPlanOf(old(tasks), old(current), old(frame), old(memory.UserRange(frame.ecx, 4)))
        case Answer(value) =>
          && Valid() && current == old(current)
          && W() == old(W()).Answered(current, [], old(memory.arena), ToWord(value))
        case Reap(j) =>
          && Valid() && current == old(current) && old(W()).Collectable(j, old(frame.ecx))
          && W() == old(W()).Collected(current, j, old(frame.ecx))
        case Block =>
          && old(current) < |old(tasks)| == |old(snapshots)|
          && Scheduled(old(W()).Stopped(old(current), Waiting, ToInt(old(frame.ebx)), old(frame.ecx)),
                       old(files.State()), old(current), old(rounds))
      ensures WaitPlanOf(old(tasks), old(current), old(frame), old(memory.UserRange(frame.ecx, 4))).Reap? ==>
        TookStatus(old(reaped), old(tasks[current].pid), Signed(old(frame.ebx)), old(frame.ecx))
    {
      hide World.Ok, Files.Valid, Replay, FilesLink, Valid, CoreBut, OnlyCurrentRuns, Scheduled, Parked,
           World.Collected, World.Collectable, LeadsTo, Files.State, Load32, TookStatus, Answers;
      RunningFacts();
      var pid := ToInt(frame.ebx);
      if frame.edx > 1 { Return(-EINVAL); return; }
      if pid < -1 { Return(-ENOSYS); return; }
      if frame.ecx != 0 && !memory.UserRange(frame.ecx, 4) { Return(-EFAULT); return; }
      var children := false;
      var i := 0;
      while i < |tasks|
        invariant i <= |tasks| && DeadChild(tasks, current, pid, 0) == DeadChild(tasks, current, pid, i)
        invariant children <==> exists t :: 0 <= t < i && Matches(tasks[current], tasks[t], pid)
        modifies {}
      {
        if Matches(tasks[current], tasks[i], pid) {
          children := true;
          if tasks[i].state == Zombie { break; }
        }
        i := i + 1;
      }
      if i < |tasks| {
        Collect(i, frame.ecx);
        return;
      }
      if !children { Return(-ECHILD); return; }
      if frame.edx == 1 { Return(0); return; }
      StopCurrent(Waiting, pid, frame.ecx);
      Schedule();
    }

    /** exit and exit_group: the code that reaches whoever collects it, or the shell, is
        the low byte of the argument. */
    method Exit()
      requires Valid()
      modifies this, files, memory
      ensures Scheduled(old(W()), old(files.State()), old(current), old(rounds))
      ensures old(current) < |old(tasks)|
      ensures old(tasks[current].pid) in exited && exited[old(tasks[current].pid)] == old(frame.ebx) % 256 * 256
    {
      hide CoreBut, OnlyCurrentRuns, Scheduled;
      ExitTask(frame.ebx % 256 * 256);
    }

    /** A fault in user mode. */
    method Fault()
      requires Valid()
      modifies this, files, memory
      ensures Scheduled(old(W()), old(files.State()), old(current), old(rounds))
      ensures old(current) < |old(tasks)|
      ensures old(tasks[current].pid) in exited && exited[old(tasks[current].pid)] == 11
    {
      hide CoreBut, OnlyCurrentRuns, Scheduled;
      ExitTask(SIGSEGV);
    }

    /** The first attempt of read, write, readv or writev on a pipe. */
    method TryTransfer(fd: nat, address: nat, count: nat, writing: bool, vectored: bool)
      returns (outcome: Outcome, ghost received: seq<Event>)
      requires Valid() && Cell(current, fd) in files.files
      requires files.files[Cell(current, fd)] < |files.descriptions| && files.descriptions[files.files[Cell(current, fd)]].kind.PipeEnd?
      modifies files, memory`arena
      ensures files.Valid() && files.fileTask == current && files.files == old(files.files) && memory.Valid()
      ensures |files.pending| == |old(files.pending)| && files.pending == old(files.pending)[current := files.pending[current]]
      ensures files.pending[current].active == outcome.Wait?
      ensures outcome.Wait? ==> VectorsInWindow(memory.base, memory.size, files.pending[current].vectors)
      ensures outcome.Done? ==> -0x8000_0000 <= outcome.value < U32
      ensures !outcome.Done? ==> memory.arena == old(memory.arena)
      ensures current < |start| && Replay(start, trace + received) == Replay(start, trace)[current := Now()]
      ensures Attempted(files.pipeSize, memory.base, old(files.State()), current, fd, address, count, writing, vectored,
                        old(memory.arena), Attempt(outcome, files.State(), memory.arena, received))
    {
      hide World.Ok, Files.Valid, Replay, Apply, Resumed, Side.Ok, LinuxMemory.StateOk, VectorFault, ReceivedBytes, PipeRequest,
           FilesLink, Valid, CoreBut, OnlyCurrentRuns, VectorsInWindow, Addresses, TotalLength;
      RunningFacts();
      files.Sizes();
      NowIs(memory.size, W(), current);
      files.LiveDescription(Cell(current, fd));
      ghost var file := files.descriptions[files.files[Cell(current, fd)]];
      ghost var p := file.kind.pipe;
      files.EndSlot(fd);
      ghost var memoryBefore, pipe, chunks, got := memory.arena, files.pipes[p], files.journal[p], files.delivered[p];
      ghost var request := PipeRequest(file, memory.arena, memory.base, address, count, writing, vectored);
      outcome := files.PipeTransfer(fd, address, count, writing, vectored);
      if request.Refused? {
        RequestErrors(file, memoryBefore, memory.base, address, count, writing, vectored);
        received := [];
        assert trace + received == trace;
      } else {
        ghost var io := PipeIo(true, writing, fd, request.vectors, 0, 0, 0, TotalLength(request.vectors));
        ghost var a := Side(io, pipe, memoryBefore, chunks, got);
        ghost var b := Side(files.pending[current], files.pipes[p], memory.arena, files.journal[p], files.delivered[p]);
        ResumedMemory(files.pipeSize, memory.base, file.nonblock, a, b, outcome, start, trace, current);
        ReadyExactly(files.pipeSize, memory.base, file.nonblock, a, b, outcome);
        received := ReceivedBytes(current, a, b);
      }
    }

    /** The caller of a transfer that must wait goes to sleep on it. */
    method SleepOnPipe()
      requires files.memory == memory && files.Valid() && memory.Valid() && OnlyCurrentRuns()
      requires files.tasks == |tasks| == |snapshots| == |start| && launch == InUser
      requires rootStatus == RootStatus(exited)
      requires W().Ok(memory.size) && |files.pending| == |tasks|
      requires FilesLink(memory.size, BlockedSaved(), files.files, files.pending, -1)
      modifies `tasks, `snapshots
      ensures Parked()
      ensures current < |old(tasks)| == |old(snapshots)|
      ensures W() == old(W()).Stopped(current, IoWaiting, old(tasks[current].waitPid), old(tasks[current].waitStatus))
    {
      hide World.Ok, Files.Valid, Replay, FilesLink;
      ghost var before := W();
      StoppedOk(memory.size, before, current, IoWaiting, tasks[current].waitPid, tasks[current].waitStatus, Now());
      ghost var table := BlockedSaved();
      tasks := tasks[current := tasks[current].(frame := frame, memory := memory.Capture(), cwd := cwd)];
      snapshots := snapshots[current := memory.arena];
      tasks := tasks[current := tasks[current].(state := IoWaiting)];
      assert tasks == table;
      assert W() == before.Stopped(current, IoWaiting, before.tasks[current].waitPid, before.tasks[current].waitStatus);
    }

    ghost function BlockedSaved(): seq<Task>
      requires current < |tasks|
      reads this, memory
    {
      tasks[current := tasks[current].(frame := frame, memory := memory.Capture(), cwd := cwd, state := IoWaiting)]
    }

    /** read, write, readv and writev on a pipe end, to completion, to sleep or to death. */
    method Transfer(fd: nat, address: nat, count: nat, writing: bool, vectored: bool) returns (ghost attempt: Attempt)
      requires Valid() && Cell(current, fd) in files.files
      requires files.files[Cell(current, fd)] < |files.descriptions| && files.descriptions[files.files[Cell(current, fd)]].kind.PipeEnd?
      modifies this, files, memory
      ensures old(current) < |old(tasks)| == |old(snapshots)|
      ensures Attempted(files.pipeSize, old(memory.base), old(files.State()), old(current), fd, address, count, writing, vectored,
                        old(memory.arena), attempt)
      ensures attempt.outcome.Done? ==>
        && Valid() && current == old(current) && files.State() == attempt.io && rounds == old(rounds)
        && -0x8000_0000 <= attempt.outcome.value < U32
        && W() == old(W()).Answered(current, attempt.received, attempt.arena, ToWord(attempt.outcome.value))
      ensures attempt.outcome.Wait? ==>
        Scheduled(old(W()).Stopped(old(current), IoWaiting, old(tasks[current].waitPid), old(tasks[current].waitStatus)),
                  attempt.io, old(current), old(rounds))
      ensures attempt.outcome.SigPipe? ==>
        && Scheduled(old(W()), attempt.io, old(current), old(rounds))
        && old(tasks[current].pid) in exited && exited[old(tasks[current].pid)] == 13
    {
      hide World.Ok, Files.Valid, Replay, FilesLink, Valid, CoreBut, Parked, Scheduled, LinuxMemory.StateOk, LeadsTo,
           Files.State, Attempted;
      RunningFacts();
      ghost var bytes, waiting := memory.arena, files.pending;
      var outcome;
      ghost var received;
      outcome, received := TryTransfer(fd, address, count, writing, vectored);
      attempt := Attempt(outcome, files.State(), memory.arena, received);
      match outcome {
        case Wait =>
          LinkBlocked(memory.size, tasks, BlockedSaved(), files.files, waiting, current, files.pending[current]);
          SleepOnPipe();
          Schedule();
        case SigPipe =>
          LinkBlocked(memory.size, tasks, tasks, files.files, waiting, current, files.pending[current]);
          StillValid();
          ExitTask(SIGPIPE);
        case Done(value) =>
          LinkBlocked(memory.size, tasks, tasks, files.files, waiting, current, files.pending[current]);
          Complete(value, bytes, received);
      }
    }

    /** The table side of pipe and pipe2, with its effect on the caller's memory. */
    method TryPipe(address: nat, flags: PipeFlags) returns (r: int, ghost received: seq<Event>)
      requires Valid()
      modifies files, memory`arena
      ensures files.Valid() && files.fileTask == current && memory.Valid() && files.pending == old(files.pending)
      ensures -0x8000_0000 <= r <= 0 && r == old(files.PipeResult(address, flags))
      ensures FilesLink(memory.size, tasks, files.files, files.pending, -1)
      ensures r == 0 ==>
        Published(current, files.fds, flags.cloexec, flags.nonblock, address - memory.base,
                  old(files.files), files.files, old(files.closeOnExec), files.closeOnExec,
                  old(files.descriptions), files.descriptions, old(files.pipes), files.pipes,
                  old(memory.arena), memory.arena)
      ensures r != 0 ==> files.files == old(files.files) && memory.arena == old(memory.arena)
      ensures received == PipeEvents(old(files.files), current, files.fds, r, address)
      ensures current < |start| && Replay(start, trace + received) == Replay(start, trace)[current := Now()]
    {
      hide World.Ok, Files.Valid, Replay, Store32, FreeDescription, FreePipe, PairEvents, FilesLink, LinuxMemory.StateOk,
           Valid, CoreBut, OnlyCurrentRuns;
      RunningFacts();
      ghost var table := files.files;
      r := files.CreatePipe(address, flags);
      if r == 0 {
        ghost var a := FreeFd(table, current, files.fds, 0);
        ghost var b := FreeFd(table, current, files.fds, a + 1);
        PairReceived(start, trace, current, address, a, b);
        LinkCells(memory.size, tasks, table, files.pending, current, files.files);
        received := PairEvents(current, address, a, b);
      } else {
        received := [];
        assert trace + received == trace;
      }
    }

    /** pipe and pipe2. */
    method MakePipe(address: nat, flags: PipeFlags)
      requires Valid()
      modifies this, files, memory`arena
      ensures Valid() && current == old(current)
      ensures W() == old(W()).Answered(current, PipeEvents(old(files.files), current, files.fds, old(files.PipeResult(address, flags)), address),
                                       memory.arena, ToWord(old(files.PipeResult(address, flags))))
      ensures old(files.PipeResult(address, flags)) == 0 ==>
        Published(current, files.fds, flags.cloexec, flags.nonblock, address - memory.base,
                  old(files.files), files.files, old(files.closeOnExec), files.closeOnExec,
                  old(files.descriptions), files.descriptions, old(files.pipes), files.pipes,
                  old(memory.arena), memory.arena)
      ensures old(files.PipeResult(address, flags)) != 0 ==> files.files == old(files.files) && memory.arena == old(memory.arena)
    {
      hide World.Ok, Files.Valid, Files.PipeResult, Replay, FilesLink, Published, Valid, CoreBut, PipeEvents;
      RunningFacts();
      ghost var bytes := memory.arena;
      var r;
      ghost var received;
      r, received := TryPipe(address, flags);
      Complete(r, bytes, received);
    }

    /** close. */
    method Close(fd: nat)
      requires Valid()
      modifies `frame, `trace, files
      ensures Valid()
      ensures files.files == old(files.files) - {Cell(current, fd)}
      ensures W() == old(W()).Answered(current, [], memory.arena,
                                       ToWord(if Cell(current, fd) in old(files.files) then 0 else -EBADF))
    {
      hide World.Ok, Files.Valid, Replay, FilesLink, Valid, CoreBut;
      RunningFacts();
      var r := files.CloseFd(fd);
      AnswerFile(r, old(files.files));
    }

    /** The tail of every call that only changes the caller's own descriptors. */
    method AnswerFile(value: int, ghost table: map<Cell, nat>)
      requires files.memory == memory && files.Valid() && memory.Valid() && launch == InUser && OnlyCurrentRuns()
      requires files.tasks == |tasks| == |snapshots| == |start| && rootStatus == RootStatus(exited) && W().Ok(memory.size)
      requires FilesLink(memory.size, tasks, table, files.pending, -1)
      requires forall cell :: cell in files.files ==> cell in table || cell.task == current
      requires -0x8000_0000 <= value < U32
      modifies `frame, `trace
      ensures Valid()
      ensures W() == old(W()).Answered(current, [], memory.arena, ToWord(value))
    {
      hide World.Ok, Files.Valid, Replay, FilesLink, Valid;
      LinkCells(memory.size, tasks, table, files.pending, current, files.files);
      StillValid();
      Return(value);
    }

    /** dup2. */
    method Dup2(fd: nat, target: nat)
      requires Valid()
      modifies `frame, `trace, files
      ensures Valid()
      ensures Cell(current, fd) !in old(files.files) || target >= files.fds ==>
        && files.files == old(files.files)
        && W() == old(W()).Answered(current, [], memory.arena, ToWord(-EBADF))
      ensures Cell(current, fd) in old(files.files) && target < files.fds ==>
        && files.files == old(files.files)[Cell(current, target) := old(files.files)[Cell(current, fd)]]
        && target < U32 && W() == old(W()).Answered(current, [], memory.arena, target)
    {
      hide World.Ok, Files.Valid, Replay, FilesLink, Valid, CoreBut;
      RunningFacts();
      files.Sizes();
      var r := files.Dup2(fd, target);
      AnswerFile(r, old(files.files));
    }

    /** dup and F_DUPFD: the lowest free descriptor from `minimum` on shares the file. */
    method Dup(fd: nat, minimum: nat)
      requires Valid()
      modifies `frame, `trace, files
      ensures Valid()
      ensures var free := if minimum < files.fds then FreeFd(old(files.files), current, files.fds, minimum) else files.fds;
        if Cell(current, fd) in old(files.files) && free < files.fds then
          && files.files == old(files.files)[Cell(current, free) := old(files.files)[Cell(current, fd)]]
          && free < U32 && W() == old(W()).Answered(current, [], memory.arena, free)
        else
          && files.files == old(files.files)
          && W() == old(W()).Answered(current, [], memory.arena,
                                      ToWord(if Cell(current, fd) !in old(files.files) then -EBADF
                                             else if minimum >= files.fds then -EINVAL else -EMFILE))
    {
      hide World.Ok, Files.Valid, Replay, FilesLink, Valid, CoreBut;
      RunningFacts();
      files.Sizes();
      var r := files.Duplicate(fd, minimum);
      AnswerFile(r, old(files.files));
    }

    /** open, given the errors in its arguments and the file system's verdict on the path. */
    method Open(access: Access, append: bool, nonblock: bool, cloexec: bool, directory: bool, early: int, outcome: int)
      requires Valid() && -0x8000_0000 <= outcome <= 0 && -0x8000_0000 <= early <= 0
      modifies `frame, `trace, files
      ensures Valid()
      ensures var free := FreeFd(old(files.files), current, files.fds, 0);
        if early == 0 && free < files.fds && outcome == 0 then
          && files.files == old(files.files)[Cell(current, free) := FreeDescription(old(files.descriptions), 0)]
          && free < U32 && W() == old(W()).Answered(current, [], memory.arena, free)
        else
          && files.files == old(files.files)
          && W() == old(W()).Answered(current, [], memory.arena, ToWord(if early != 0 then early else if free < files.fds then outcome else -EMFILE))
    {
      hide World.Ok, Files.Valid, Replay, FilesLink, Valid, CoreBut;
      RunningFacts();
      files.Sizes();
      var r := files.Open(access, append, nonblock, cloexec, directory, early, outcome);
      AnswerFile(r, old(files.files));
    }

    /** F_SETFL. */
    method SetFlags(fd: nat, append: bool, nonblock: bool, unknown: bool)
      requires Valid()
      modifies `frame, `trace, files
      ensures Valid() && files.files == old(files.files)
      ensures W() == old(W()).Answered(current, [], memory.arena, ToWord(old(files.SetResult(fd, nonblock, unknown))))
    {
      hide World.Ok, Files.Valid, Files.SetResult, Replay, FilesLink, Valid, CoreBut;
      RunningFacts();
      var r := files.SetFileFlags(fd, append, nonblock, unknown);
      AnswerFile(r, old(files.files));
    }

    /** F_SETFD. */
    method SetCloseOnExec(fd: nat, cloexec: bool)
      requires Valid()
      modifies `frame, `trace, files
      ensures Valid() && files.files == old(files.files)
      ensures Cell(current, fd) in files.files ==>
        files.closeOnExec == old(files.closeOnExec) - {Cell(current, fd)} + if cloexec then {Cell(current, fd)} else {}
      ensures W() == old(W()).Answered(current, [], memory.arena, ToWord(if Cell(current, fd) in files.files then 0 else -EBADF))
    {
      hide World.Ok, Files.Valid, Replay, FilesLink, Valid, CoreBut;
      RunningFacts();
      var r := files.SetDescriptorFlags(fd, cloexec);
      AnswerFile(r, old(files.files));
    }

    /** A successful execve: a new image in the arena, and no descriptor marked
        close-on-exec survives. */
    method Exec(now: Private)
      requires Valid() && |now.memory| == memory.size && LinuxMemory.StateOk(memory.size, now.state)
      modifies `frame, `cwd, `trace, memory, files
      ensures Valid()
      ensures W() == old(W()).(now := now, trace := old(trace) + [Ran(current, now)])
      ensures files.files == map c | c in old(files.files) && !(c.task == current && c in old(files.closeOnExec)) :: old(files.files)[c]
    {
      hide World.Ok, Files.Valid, Replay, FilesLink, Valid, CoreBut, OnlyCurrentRuns;
      RunningFacts();
      files.CloseOnExec();
      LinkCells(memory.size, tasks, old(files.files), files.pending, current, files.files);
      StillValid();
      UserRuns(now);
    }

    // -------------------------------------------------------------- what every run keeps

    /** The single arena refines private address spaces: at every return to user mode, each
        live task's memory, registers, break and directory are what the events that named
        it, and nothing else, made of what it started with. */
    lemma PrivateMachines(t: nat)
      requires Valid() && t < |tasks| && tasks[t].Live()
      ensures View(tasks, snapshots, Now(), t) == Replay(start, trace)[t]
      ensures t == current ==> Replay(start, trace)[t] == Now()
      ensures t != current ==> Replay(start, trace)[t] == Saved(tasks, snapshots, t)
    {
    }

    /** The process tree: pids are distinct, parents are live or absent, waiting tasks have
        an unreaped child that answers to their request. */
    lemma ProcessTree(s: nat, t: nat)
      requires Valid() && s < |tasks| && t < |tasks|
      ensures s != t && tasks[s].state != Unused && tasks[t].state != Unused ==> tasks[s].pid != tasks[t].pid
      ensures tasks[t].state != Unused && tasks[t].parent != 0 ==> LivePid(tasks, tasks[t].parent)
      ensures tasks[t].state == Waiting ==> HasChild(tasks, t)
      ensures tasks[t].state == Running <==> t == current
      ensures tasks[t].state != Unused ==> tasks[t].pid in parents && parents[tasks[t].pid] == tasks[t].parent
    {
    }

    /** Exit statuses: delivered at most once, as the child left them (exit_task records
        them), to the parent on record, never while the child's slot is in use. */
    lemma StatusesDeliveredOnce(i: nat, j: nat)
      requires Valid() && i < j < |reaped|
      ensures reaped[i].child != reaped[j].child
      ensures reaped[i].child in parents && parents[reaped[i].child] == reaped[i].parent
      ensures reaped[i].child in exited && exited[reaped[i].child] == reaped[i].status
      ensures forall t :: 0 <= t < |tasks| && tasks[t].state != Unused ==> tasks[t].pid != reaped[i].child
    {
    }

    /** The launch reports 125 when a task is blocked for ever, or when init ended with that
        very status; otherwise what init exited with. */
    lemma LaunchStatus()
      requires Abandoned()
      ensures launch == Shell(125) <==> Blocked() || (1 in exited && ShellStatus(exited[1]) == 125)
      ensures !Blocked() ==> 1 in exited && launch == Shell(ShellStatus(exited[1]))
    {
    }
  }
}
