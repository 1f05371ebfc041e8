/** The static tables of linux_task.c as values: the process tree, and the private
    machines (memory, registers, break, directory) the tasks believe they own. */
module TaskTables {
  import opened Bytes
  import opened PipeBytes
  import opened LinuxMemory
  import opened FileTables

  const ECHILD := 10
  const ENOSYS := 38
  const SIGSEGV := 11
  const SIGPIPE := 13

  /** A signed result as it is left in a 32-bit register. */
  function ToWord(i: int): Word
    requires -0x8000_0000 <= i < U32
  {
    if i < 0 then i + U32 else i
  }

  function ToInt(w: Word): int {
    if w >= 0x8000_0000 then w - U32 else w
  }

  /** A result is read back from the register as it was left there. */
  lemma WordSigned(i: int)
    requires -0x8000_0000 <= i < 0x8000_0000
    ensures ToInt(ToWord(i)) == i && (i >= 0 ==> ToWord(i) == i) && (i < 0 ==> ToWord(i) == 0x1_0000_0000 + i)
  {
  }

  /** The saved user registers; `rest` is everything the scheduler never looks at. */
  datatype Frame = Frame(eax: Word, ebx: Word, ecx: Word, edx: Word, rest: seq<Word>)

  datatype RunState = Unused | Running | Runnable | Waiting | IoWaiting | Zombie

  datatype Task = Task(state: RunState, pid: nat, parent: nat, status: nat, waitPid: int, waitStatus: nat,
                       frame: Frame, memory: MemoryState, cwd: string)
  {
    predicate Live() {
      state != Unused && state != Zombie
    }
  }

  predicate Matches(parent: Task, child: Task, pid: int) {
    child.state != Unused && child.parent == parent.pid && (pid <= 0 || child.pid == pid)
  }

  // ------------------------------------------------------------ the process tree

  /** The init process keeps slot 0 for the whole launch. */
  ghost predicate InitOk(tasks: seq<Task>) {
    |tasks| > 0 && tasks[0].pid == 1 && tasks[0].parent == 0 && tasks[0].state != Unused
  }

  ghost predicate PidsOk(tasks: seq<Task>, nextPid: nat) {
    && (forall t :: 0 <= t < |tasks| && tasks[t].state != Unused ==> 1 <= tasks[t].pid < nextPid)
    && (forall s, t :: 0 <= s < t < |tasks| && tasks[s].state != Unused && tasks[t].state != Unused ==>
          tasks[s].pid != tasks[t].pid)
  }

  ghost predicate LivePid(tasks: seq<Task>, pid: nat) {
    exists s :: 0 <= s < |tasks| && tasks[s].Live() && tasks[s].pid == pid
  }

  /** Every parent is 0 or a live task. */
  ghost predicate ParentsOk(tasks: seq<Task>) {
    forall t :: 0 <= t < |tasks| && tasks[t].state != Unused && tasks[t].parent != 0 ==> LivePid(tasks, tasks[t].parent)
  }

  ghost predicate HasChild(tasks: seq<Task>, t: nat)
    requires t < |tasks|
  {
    exists s :: 0 <= s < |tasks| && Matches(tasks[t], tasks[s], tasks[t].waitPid)
  }

  /** Nobody waits in vain: a waiting task has a matching child not yet reaped. */
  ghost predicate WaitersOk(tasks: seq<Task>) {
    forall t :: 0 <= t < |tasks| && tasks[t].state == Waiting ==> HasChild(tasks, t)
  }

  ghost predicate TreeOk(tasks: seq<Task>, nextPid: nat) {
    InitOk(tasks) && PidsOk(tasks, nextPid) && ParentsOk(tasks) && WaitersOk(tasks)
  }

  /** Is some waiting task owed the status of a dead child? */
  ghost predicate Owed(tasks: seq<Task>, t: nat)
    requires t < |tasks|
  {
    tasks[t].state == Waiting &&
    exists s :: 0 <= s < |tasks| && tasks[s].state == Zombie && Matches(tasks[t], tasks[s], tasks[t].waitPid)
  }

  // ------------------------------------------------------------ exit statuses

  datatype Reaped = Reaped(child: nat, parent: nat, status: nat)

  /** A status is delivered at most once, and it is the one the child exited with. */
  ghost predicate StatusesOk(tasks: seq<Task>, nextPid: nat, reaped: seq<Reaped>, exited: map<nat, nat>) {
    && (forall t :: 0 <= t < |tasks| ==> tasks[t].status < 0x1_0000)
    && (forall t :: 0 <= t < |tasks| && tasks[t].state == Zombie ==>
          tasks[t].pid in exited && exited[tasks[t].pid] == tasks[t].status)
    && (forall pid :: pid in exited ==> pid < nextPid)
    && (forall t :: 0 <= t < |tasks| && tasks[t].Live() ==> tasks[t].pid !in exited)
    && (forall i :: 0 <= i < |reaped| ==> reaped[i].child in exited && exited[reaped[i].child] == reaped[i].status)
    && (forall i, j :: 0 <= i < j < |reaped| ==> reaped[i].child != reaped[j].child)
    && (forall i, t :: 0 <= i < |reaped| && 0 <= t < |tasks| && tasks[t].state != Unused ==> tasks[t].pid != reaped[i].child)
  }

  lemma ReapStatuses(tasks: seq<Task>, nextPid: nat, reaped: seq<Reaped>, exited: map<nat, nat>, i: nat, j: nat, woken: Task)
    requires PidsOk(tasks, nextPid) && StatusesOk(tasks, nextPid, reaped, exited)
    requires i < |tasks| && j < |tasks| && i != j && tasks[i].Live() && tasks[j].state == Zombie
    requires woken == tasks[i].(state := woken.state, frame := woken.frame) && woken.Live()
    ensures PidsOk(tasks[i := woken][j := tasks[j].(state := Unused)], nextPid)
    ensures StatusesOk(tasks[i := woken][j := tasks[j].(state := Unused)], nextPid,
                       reaped + [Reaped(tasks[j].pid, tasks[i].pid, tasks[j].status)], exited)
  {
  }

  /** The recorded parents: of a task in use its current one, and of a task whose status was
      delivered the one it was delivered to. */
  ghost predicate KinOk(tasks: seq<Task>, nextPid: nat, reaped: seq<Reaped>, parents: map<nat, nat>) {
    && (forall t :: 0 <= t < |tasks| && tasks[t].state != Unused ==>
          tasks[t].pid in parents && parents[tasks[t].pid] == tasks[t].parent)
    && (forall i :: 0 <= i < |reaped| ==> reaped[i].child in parents && parents[reaped[i].child] == reaped[i].parent)
    && (forall pid :: pid in parents ==> pid < nextPid)
  }

  /** Slots keep their processes. */
  lemma KinKept(tasks: seq<Task>, after: seq<Task>, nextPid: nat, reaped: seq<Reaped>, parents: map<nat, nat>)
    requires KinOk(tasks, nextPid, reaped, parents) && |after| == |tasks|
    requires forall t :: 0 <= t < |after| && after[t].state != Unused ==>
      tasks[t].state != Unused && after[t].pid == tasks[t].pid && after[t].parent == tasks[t].parent
    ensures KinOk(after, nextPid, reaped, parents)
  {
  }

  /** A status goes to the parent on record. */
  lemma KinReaped(tasks: seq<Task>, after: seq<Task>, nextPid: nat, reaped: seq<Reaped>, parents: map<nat, nat>,
                  i: nat, j: nat, pid: int)
    requires KinOk(tasks, nextPid, reaped, parents) && |after| == |tasks| && i < |tasks| && j < |tasks|
    requires tasks[j].state == Zombie && Matches(tasks[i], tasks[j], pid)
    requires forall t :: 0 <= t < |after| && after[t].state != Unused ==>
      tasks[t].state != Unused && after[t].pid == tasks[t].pid && after[t].parent == tasks[t].parent
    ensures KinOk(after, nextPid, reaped + [Reaped(tasks[j].pid, tasks[i].pid, tasks[j].status)], parents)
  {
  }

  /** The parent of the task in use with this pid. */
  ghost function Kin(tasks: seq<Task>, pid: nat, otherwise: nat): nat {
    if t :| 0 <= t < |tasks| && tasks[t].state != Unused && tasks[t].pid == pid then tasks[t].parent else otherwise
  }

  /** The record once the tasks in use have the parents they have in `after`. */
  ghost function Reparented(parents: map<nat, nat>, after: seq<Task>): map<nat, nat> {
    map pid | pid in parents :: Kin(after, pid, parents[pid])
  }

  lemma KinIs(tasks: seq<Task>, nextPid: nat, t: nat, otherwise: nat)
    requires PidsOk(tasks, nextPid) && t < |tasks| && tasks[t].state != Unused
    ensures Kin(tasks, tasks[t].pid, otherwise) == tasks[t].parent
  {
  }

  lemma KinDied(tasks: seq<Task>, nextPid: nat, reaped: seq<Reaped>, exited: map<nat, nat>, parents: map<nat, nat>, c: nat, status: nat)
    requires PidsOk(tasks, nextPid) && StatusesOk(tasks, nextPid, reaped, exited) && KinOk(tasks, nextPid, reaped, parents)
    requires c < |tasks| && tasks[c].Live() && status < 0x1_0000
    ensures KinOk(Killed(tasks, c, status), nextPid, reaped, Reparented(parents, Killed(tasks, c, status)))
    ensures KinFollow(parents, Reparented(parents, Killed(tasks, c, status)), exited[tasks[c].pid := status])
  {
    hide Orphaned;
    var after := Killed(tasks, c, status);
    DieStatuses(tasks, nextPid, reaped, exited, c, status);
    forall t | 0 <= t < |after| && after[t].state != Unused
      ensures tasks[t].pid in parents && Reparented(parents, after)[after[t].pid] == after[t].parent
    {
      KinIs(after, nextPid, t, parents[tasks[t].pid]);
    }
    hide StatusesOk;
    forall pid | pid in parents
      ensures Reparented(parents, after)[pid] == parents[pid]
              || (parents[pid] == tasks[c].pid && Reparented(parents, after)[pid] <= 1)
    {
      if t :| 0 <= t < |after| && after[t].state != Unused && after[t].pid == pid {
        KinIs(after, nextPid, t, parents[pid]);
      }
    }
    forall i | 0 <= i < |reaped| ensures Reparented(parents, after)[reaped[i].child] == reaped[i].parent {
      NotHeld(after, nextPid, reaped, exited[tasks[c].pid := status], i);
    }
  }

  lemma NotHeld(tasks: seq<Task>, nextPid: nat, reaped: seq<Reaped>, exited: map<nat, nat>, i: nat)
    requires StatusesOk(tasks, nextPid, reaped, exited) && i < |reaped|
    ensures forall t :: 0 <= t < |tasks| && tasks[t].state != Unused ==> tasks[t].pid != reaped[i].child
  {
  }

  lemma KinForked(tasks: seq<Task>, after: seq<Task>, nextPid: nat, reaped: seq<Reaped>, parents: map<nat, nat>, c: nat, child: nat)
    requires KinOk(tasks, nextPid, reaped, parents) && PidsOk(tasks, nextPid) && |after| == |tasks| && c < |tasks| && child < |tasks|
    requires after[child].pid == nextPid && after[child].parent == tasks[c].pid
    requires forall t :: 0 <= t < |after| && t != child && after[t].state != Unused ==>
      tasks[t].state != Unused && after[t].pid == tasks[t].pid && after[t].parent == tasks[t].parent
    ensures KinOk(after, nextPid + 1, reaped, parents[nextPid := tasks[c].pid])
  {
  }

  /** A task changes parents only when its parent dies, and then to init or to nobody. */
  ghost predicate KinFollow(before: map<nat, nat>, after: map<nat, nat>, exited: map<nat, nat>) {
    forall pid :: pid in before ==>
      pid in after && (after[pid] == before[pid] || (before[pid] in exited && after[pid] <= 1))
  }

  /** Reaping the zombie in slot `j` keeps the tree and the log; in `woken` the parent
      in slot `i` may have become runnable as well. */
  lemma ReapKeeps(tasks: seq<Task>, nextPid: nat, reaped: seq<Reaped>, exited: map<nat, nat>, i: nat, j: nat, pid: int, woken: Task)
    requires TreeOk(tasks, nextPid) && StatusesOk(tasks, nextPid, reaped, exited)
    requires i < |tasks| && j < |tasks| && i != j
    requires tasks[i].Live() && tasks[j].state == Zombie && Matches(tasks[i], tasks[j], pid)
    requires woken == tasks[i].(state := woken.state, frame := woken.frame) && woken.Live() && woken.state != Waiting
    ensures TreeOk(tasks[i := woken][j := tasks[j].(state := Unused)], nextPid)
    ensures StatusesOk(tasks[i := woken][j := tasks[j].(state := Unused)], nextPid,
                       reaped + [Reaped(tasks[j].pid, tasks[i].pid, tasks[j].status)], exited)
  {
    var after := tasks[i := woken][j := tasks[j].(state := Unused)];
    assert tasks[i].pid != 0;
    ReapStatuses(tasks, nextPid, reaped, exited, i, j, woken);
    hide StatusesOk;
    forall t | 0 <= t < |after| && after[t].state != Unused && after[t].parent != 0
      ensures LivePid(after, after[t].parent)
    {
      assert LivePid(tasks, tasks[t].parent);
      var s :| 0 <= s < |tasks| && tasks[s].Live() && tasks[s].pid == tasks[t].parent;
      assert after[s].Live();
    }
    forall t | 0 <= t < |after| && after[t].state == Waiting ensures HasChild(after, t) {
      assert HasChild(tasks, t);
      var s :| 0 <= s < |tasks| && Matches(tasks[t], tasks[s], tasks[t].waitPid);
      assert s != j;
      assert Matches(after[t], after[s], after[t].waitPid);
    }
  }

  /** The tree after the task in slot `c` died: its children go to init, or to nobody
      when init itself is dead. */
  function Orphaned(tasks: seq<Task>, c: nat, upto: nat): (r: seq<Task>)
    requires c < |tasks| && 0 < upto <= |tasks|
    ensures |r| == |tasks|
  {
    seq(|tasks|, t requires 0 <= t < |tasks| =>
      if 1 <= t < upto && tasks[t].state != Unused && tasks[t].parent == tasks[c].pid
      then tasks[t].(parent := if tasks[0].state != Zombie then 1 else 0)
      else tasks[t])
  }

  function Killed(tasks: seq<Task>, c: nat, status: nat): (r: seq<Task>)
    requires c < |tasks|
    ensures |r| == |tasks|
    ensures forall t :: 0 <= t < |r| ==> r[t].parent == tasks[t].parent || r[t].parent == 0 || (r[t].parent == 1 && r[0].state != Zombie)
    ensures forall t :: 0 <= t < |r| && t > 0 && r[t].state != Unused ==> tasks[t].parent != tasks[c].pid || r[t].parent <= 1
    ensures forall t :: 0 <= t < |r| && (tasks[t].parent != tasks[c].pid || t == 0) ==> r[t].parent == tasks[t].parent
    ensures forall t :: 0 <= t < |r| && t != c ==> r[t] == tasks[t].(parent := r[t].parent)
    ensures r[c] == tasks[c].(status := status, state := Zombie, parent := r[c].parent)
  {
    Orphaned(tasks[c := tasks[c].(status := status, state := Zombie)], c, |tasks|)
  }

  lemma DieParents(tasks: seq<Task>, nextPid: nat, c: nat, status: nat)
    requires InitOk(tasks) && PidsOk(tasks, nextPid) && ParentsOk(tasks)
    requires c < |tasks| && tasks[c].Live()
    ensures ParentsOk(Killed(tasks, c, status))
  {
    var dead := Killed(tasks, c, status);
    forall t | 0 <= t < |dead| && dead[t].state != Unused && dead[t].parent != 0
      ensures LivePid(dead, dead[t].parent)
    {
      if tasks[t].parent != tasks[c].pid {
        assert LivePid(tasks, tasks[t].parent);
        var s :| 0 <= s < |tasks| && tasks[s].Live() && tasks[s].pid == tasks[t].parent;
        assert dead[s].Live() && dead[s].pid == dead[t].parent;
      } else {
        assert dead[0].Live() && dead[0].pid == 1;
      }
    }
  }

  lemma DieWaiters(tasks: seq<Task>, nextPid: nat, c: nat, status: nat)
    requires PidsOk(tasks, nextPid) && WaitersOk(tasks)
    requires c < |tasks| && tasks[c].Live()
    ensures WaitersOk(Killed(tasks, c, status))
  {
    hide Orphaned;
    var dead := Killed(tasks, c, status);
    forall t | 0 <= t < |dead| && dead[t].state == Waiting ensures HasChild(dead, t) {
      assert t != c && tasks[t].state == Waiting;
      assert HasChild(tasks, t);
      var s :| 0 <= s < |tasks| && Matches(tasks[t], tasks[s], tasks[t].waitPid);
      assert tasks[s].parent == tasks[t].pid != tasks[c].pid;
      assert Matches(dead[t], dead[s], dead[t].waitPid);
    }
  }

  lemma DieStatuses(tasks: seq<Task>, nextPid: nat, reaped: seq<Reaped>, exited: map<nat, nat>, c: nat, status: nat)
    requires PidsOk(tasks, nextPid) && StatusesOk(tasks, nextPid, reaped, exited)
    requires c < |tasks| && tasks[c].Live() && status < 0x1_0000
    ensures PidsOk(Killed(tasks, c, status), nextPid)
    ensures StatusesOk(Killed(tasks, c, status), nextPid, reaped, exited[tasks[c].pid := status])
  {
    hide Orphaned;
  }

  /** Dying keeps the tree, and records the one status that may ever be delivered. */
  lemma DieKeeps(tasks: seq<Task>, nextPid: nat, reaped: seq<Reaped>, exited: map<nat, nat>, c: nat, status: nat)
    requires TreeOk(tasks, nextPid) && StatusesOk(tasks, nextPid, reaped, exited)
    requires c < |tasks| && tasks[c].Live() && status < 0x1_0000
    ensures TreeOk(Killed(tasks, c, status), nextPid)
    ensures StatusesOk(Killed(tasks, c, status), nextPid, reaped, exited[tasks[c].pid := status])
  {
    DieParents(tasks, nextPid, c, status);
    DieWaiters(tasks, nextPid, c, status);
    DieStatuses(tasks, nextPid, reaped, exited, c, status);
  }

  // ------------------------------------------------------------ private machines

  /** Everything a task believes is its own. */
  datatype Private = Private(memory: seq<Byte>, frame: Frame, state: MemoryState, cwd: string)

  /** The only things that ever happen to a private machine. */
  datatype Event =
    | Ran(task: nat, now: Private)                                    // its own instructions and calls on itself
    | Result(task: nat, value: Word)                                  // a system-call result
    | StatusWritten(task: nat, address: nat, status: nat)             // the wait status it asked for
    | Received(task: nat, addresses: seq<nat>, data: seq<Byte>)       // bytes it asked to read, or pipe's descriptors
    | Cloned(task: nat, parent: nat)                                  // its creation by fork

  /** The idealized machine: `n` separate memories and register sets. */
  function Apply(machines: seq<Private>, e: Event): (r: seq<Private>)
    ensures |r| == |machines|
  {
    if e.task >= |machines| then machines
    else
      var m := machines[e.task];
      match e
      case Ran(t, now) => machines[t := now]
      case Result(t, value) => machines[t := m.(frame := m.frame.(eax := value))]
      case StatusWritten(t, address, status) =>
        if m.state.base <= address && address + 4 <= m.state.base + |m.memory| && status < U32
        then machines[t := m.(memory := Store32(m.memory, address - m.state.base, status))]
        else machines
      case Received(t, addresses, data) =>
        if |addresses| == |data| && InWindow(m.state.base, |m.memory|, addresses)
        then machines[t := m.(memory := Scatter(m.memory, m.state.base, addresses, data))]
        else machines
      case Cloned(t, parent) => if parent < |machines| then machines[t := machines[parent]] else machines
  }

  function Replay(start: seq<Private>, trace: seq<Event>): (r: seq<Private>)
    ensures |r| == |start|
  {
    if trace == [] then start else Apply(Replay(start, trace[..|trace| - 1]), trace[|trace| - 1])
  }

  lemma ReplayStep(start: seq<Private>, trace: seq<Event>, e: Event)
    ensures Replay(start, trace + [e]) == Apply(Replay(start, trace), e)
  {
    assert (trace + [e])[..|trace|] == trace;
  }

  lemma ResultStep(start: seq<Private>, trace: seq<Event>, t: nat, value: Word)
    requires t < |start|
    ensures var m := Replay(start, trace)[t];
      Replay(start, trace + [Result(t, value)]) == Replay(start, trace)[t := m.(frame := m.frame.(eax := value))]
  {
    ReplayStep(start, trace, Result(t, value));
  }

  lemma StatusStep(start: seq<Private>, trace: seq<Event>, t: nat, address: nat, status: Word)
    requires t < |start|
    requires var m := Replay(start, trace)[t];
      m.state.base <= address && address + 4 <= m.state.base + |m.memory|
    ensures var m := Replay(start, trace)[t];
      Replay(start, trace + [StatusWritten(t, address, status)])
        == Replay(start, trace)[t := m.(memory := Store32(m.memory, address - m.state.base, status))]
  {
    ReplayStep(start, trace, StatusWritten(t, address, status));
  }

  lemma ReceivedStep(start: seq<Private>, trace: seq<Event>, t: nat, addresses: seq<nat>, data: seq<Byte>)
    requires t < |start| && |addresses| == |data|
    requires var m := Replay(start, trace)[t]; InWindow(m.state.base, |m.memory|, addresses)
    ensures var m := Replay(start, trace)[t];
      Replay(start, trace + [Received(t, addresses, data)])
        == Replay(start, trace)[t := m.(memory := Scatter(m.memory, m.state.base, addresses, data))]
  {
    ReplayStep(start, trace, Received(t, addresses, data));
  }

  lemma ClonedStep(start: seq<Private>, trace: seq<Event>, child: nat, parent: nat)
    requires child < |start| && parent < |start|
    ensures Replay(start, trace + [Cloned(child, parent)]) == Replay(start, trace)[child := Replay(start, trace)[parent]]
  {
    ReplayStep(start, trace, Cloned(child, parent));
  }

  lemma RanStep(start: seq<Private>, trace: seq<Event>, t: nat, now: Private)
    requires t < |start|
    ensures Replay(start, trace + [Ran(t, now)]) == Replay(start, trace)[t := now]
  {
    ReplayStep(start, trace, Ran(t, now));
  }

  /** A private machine changes only by events that name its task: between any two
      points of a run, a task no event names keeps its memory, registers, break and
      directory exactly. */
  lemma {:induction false} Isolation(start: seq<Private>, trace: seq<Event>, more: seq<Event>, t: nat)
    requires t < |start|
    requires forall i :: 0 <= i < |more| ==> more[i].task != t
    ensures Replay(start, trace + more)[t] == Replay(start, trace)[t]
    decreases |more|
  {
    if more == [] {
      assert trace + more == trace;
    } else {
      var n := |more| - 1;
      Isolation(start, trace, more[..n], t);
      assert trace + more == (trace + more[..n]) + [more[n]];
      ReplayStep(start, trace + more[..n], more[n]);
    }
  }

  /** Isolation over a run: from one state of the machine to a later one, a live task that no
      event in between names finds its memory, registers, break and directory as they were,
      whatever the other tasks did with the arena. */
  lemma RunIsolation(size: nat, a: World, b: World, t: nat)
    requires a.Ok(size) && b.Ok(size) && b.start == a.start && a.trace <= b.trace
    requires t < |a.tasks| == |b.tasks| && a.tasks[t].Live() && b.tasks[t].Live()
    requires forall i :: |a.trace| <= i < |b.trace| ==> b.trace[i].task != t
    ensures |a.tasks| == |a.snapshots| && |b.tasks| == |b.snapshots|
    ensures View(b.tasks, b.snapshots, b.now, t) == View(a.tasks, a.snapshots, a.now, t)
  {
    hide TreeOk, StatusesOk, Replay;
    var more := b.trace[|a.trace|..];
    assert b.trace == a.trace + more;
    Isolation(a.start, a.trace, more, t);
  }

  function Saved(tasks: seq<Task>, snapshots: seq<seq<Byte>>, t: nat): Private
    requires t < |tasks| == |snapshots|
  {
    Private(snapshots[t], tasks[t].frame, tasks[t].memory, tasks[t].cwd)
  }

  /** The machine of slot `t`: the arena and live registers if it runs, its snapshot otherwise. */
  function View(tasks: seq<Task>, snapshots: seq<seq<Byte>>, now: Private, t: nat): Private
    requires t < |tasks| == |snapshots|
  {
    if tasks[t].state == Running then now else Saved(tasks, snapshots, t)
  }

  /** One arena and a few snapshots implement private machines. */
  ghost predicate ViewsOk(tasks: seq<Task>, snapshots: seq<seq<Byte>>, now: Private, start: seq<Private>, trace: seq<Event>) {
    && |tasks| == |snapshots| == |start|
    && forall t :: 0 <= t < |tasks| && tasks[t].Live() ==> View(tasks, snapshots, now, t) == Replay(start, trace)[t]
  }

  /** The parts of the machine state a stopped task relies on. */
  ghost predicate SavedOk(size: nat, tasks: seq<Task>, snapshots: seq<seq<Byte>>) {
    && |tasks| == |snapshots|
    && (forall t :: 0 <= t < |tasks| ==> |snapshots[t]| == size)
    && (forall t :: 0 <= t < |tasks| && tasks[t].Live() && tasks[t].state != Running ==> StateOk(size, tasks[t].memory))
    && (forall t :: 0 <= t < |tasks| && tasks[t].state == Waiting && tasks[t].waitStatus != 0 ==>
          tasks[t].memory.base <= tasks[t].waitStatus && tasks[t].waitStatus + 4 <= tasks[t].memory.base + size)
  }

  /** A task has a transfer pending exactly when it is blocked on a pipe (or is `busy`
      resuming one), and its vectors lie in its own window; the dead hold no descriptors. */
  ghost predicate FilesLink(size: nat, tasks: seq<Task>, files: map<Cell, nat>, pending: seq<PipeIo>, busy: int) {
    && |pending| == |tasks|
    && (forall t :: 0 <= t < |tasks| ==> (pending[t].active <==> tasks[t].state == IoWaiting || t == busy))
    && (forall t :: 0 <= t < |tasks| && pending[t].active ==>
          VectorsInWindow(tasks[t].memory.base, size, pending[t].vectors))
    && (forall c :: c in files && c.task < |tasks| ==> tasks[c.task].Live())
  }

  lemma ParkTree(tasks: seq<Task>, nextPid: nat, c: nat, parked: Task)
    requires TreeOk(tasks, nextPid) && c < |tasks| && tasks[c].Live()
    requires parked == tasks[c].(state := parked.state, waitPid := parked.waitPid, waitStatus := parked.waitStatus,
                                 frame := parked.frame, memory := parked.memory, cwd := parked.cwd)
    requires parked.Live()
    requires parked.state == Waiting ==> exists s :: 0 <= s < |tasks| && Matches(parked, tasks[s], parked.waitPid)
    ensures TreeOk(tasks[c := parked], nextPid)
  {
    var after := tasks[c := parked];
    forall t | 0 <= t < |after| && after[t].state != Unused && after[t].parent != 0
      ensures LivePid(after, after[t].parent)
    {
      assert LivePid(tasks, tasks[t].parent);
      var s :| 0 <= s < |tasks| && tasks[s].Live() && tasks[s].pid == tasks[t].parent;
      assert after[s].Live() && after[s].pid == after[t].parent;
    }
    forall t | 0 <= t < |after| && after[t].state == Waiting ensures HasChild(after, t) {
      if t == c {
        var s :| 0 <= s < |tasks| && Matches(parked, tasks[s], parked.waitPid);
        assert Matches(after[t], after[s], after[t].waitPid);
      } else {
        assert HasChild(tasks, t);
        var s :| 0 <= s < |tasks| && Matches(tasks[t], tasks[s], tasks[t].waitPid);
        assert Matches(after[t], after[s], after[t].waitPid);
      }
    }
  }

  /** What waking can do to the table: waiters become runnable, zombies disappear. */
  ghost predicate WokenFrom(before: seq<Task>, after: seq<Task>) {
    && |before| == |after|
    && forall t :: 0 <= t < |before| ==>
         || after[t] == before[t]
         || (before[t].state == Waiting && after[t] == before[t].(state := Runnable, frame := after[t].frame)
             && after[t].frame == before[t].frame.(eax := after[t].frame.eax))
         || (before[t].state == Zombie && after[t] == before[t].(state := Unused))
  }

  // ------------------------------------------------------------ the scheduler's state as a value

  /** All of linux_task.c's state except the files: `now` is the running machine. */
  datatype World = World(tasks: seq<Task>, snapshots: seq<seq<Byte>>, nextPid: nat, now: Private,
                         start: seq<Private>, trace: seq<Event>, reaped: seq<Reaped>, exited: map<nat, nat>,
                         parents: map<nat, nat>)
  {
    ghost predicate Ok(size: nat) {
      && nextPid <= INT_MAX
      && TreeOk(tasks, nextPid)
      && StatusesOk(tasks, nextPid, reaped, exited)
      && KinOk(tasks, nextPid, reaped, parents)
      && SavedOk(size, tasks, snapshots)
      && ViewsOk(tasks, snapshots, now, start, trace)
    }

    /** Can the zombie in slot `j` be delivered to the task in slot `i`? */
    predicate Deliverable(i: nat, j: nat) {
      && i < |tasks| == |snapshots| && j < |tasks| && tasks[j].pid < U32 && tasks[j].status < U32
      && (tasks[i].waitStatus != 0 ==>
            && 0 <= tasks[i].waitStatus - tasks[i].memory.base
            && tasks[i].waitStatus - tasks[i].memory.base + 4 <= |snapshots[i]|)
    }

    /** wake_waiters, one delivery: zombie `j` to waiter `i`. */
    function Delivered(i: nat, j: nat): (w: World)
      requires Deliverable(i, j)
    {
      var t, z := tasks[i], tasks[j];
      this.(
        tasks := tasks[i := t.(state := Runnable, frame := t.frame.(eax := z.pid))][j := z.(state := Unused)],
        snapshots := if t.waitStatus != 0 then snapshots[i := Store32(snapshots[i], t.waitStatus - t.memory.base, z.status)]
                     else snapshots,
        trace := trace + WaitEvents(i, t, z),
        reaped := reaped + [Reaped(z.pid, t.pid, z.status)])
    }

    /** wake_waiters for slot `i`: a waiting task takes the lowest dead child that answers
        to its request. */
    function WokenAt(i: nat): World {
      if i < |tasks| && tasks[i].state == Waiting then
        var j := DeadChild(tasks, i, tasks[i].waitPid, 0);
        if j < |tasks| && Deliverable(i, j) then Delivered(i, j) else this
      else this
    }

    /** wake_waiters for the first `n` slots, in slot order. */
    function Woken(n: nat): World {
      if n == 0 then this else Woken(n - 1).WokenAt(n - 1)
    }

    /** The running task's machine is copied to its slot, which becomes `parked`. */
    function Stopped(c: nat, state: RunState, waitPid: int, waitStatus: nat): World
      requires c < |tasks| == |snapshots|
    {
      this.(
        tasks := tasks[c := tasks[c].(state := state, frame := now.frame, memory := now.state, cwd := now.cwd,
                                      waitPid := waitPid, waitStatus := waitStatus)],
        snapshots := snapshots[c := now.memory])
    }

    /** A stopped task's machine is copied back and runs. */
    function Started(c: nat): World
      requires c < |tasks| == |snapshots|
    {
      this.(tasks := tasks[c := tasks[c].(state := Running)], now := Saved(tasks, snapshots, c))
    }

    /** The running task dies. */
    ghost function Died(c: nat, status: nat): World
      requires c < |tasks|
    {
      this.(tasks := Killed(tasks, c, status), exited := exited[tasks[c].pid := status],
            parents := Reparented(parents, Killed(tasks, c, status)))
    }

    /** A call of the running task `c` came back to it with `value`; `received` accounts
        for what the call left in its memory, now `bytes`. Nothing else changed. */
    function Answered(c: nat, received: seq<Event>, bytes: seq<Byte>, value: Word): World {
      this.(now := now.(memory := bytes, frame := now.frame.(eax := value)),
            trace := trace + received + [Result(c, value)])
    }

    /** May the running machine be given the status of the dead task in slot `j`, at
        `address` unless that is 0? */
    predicate Collectable(j: nat, address: nat) {
      && j < |tasks| && tasks[j].pid < U32 && tasks[j].status < U32
      && (address != 0 ==> now.state.base <= address && address + 4 <= now.state.base + |now.memory|)
    }

    /** The running task `c` took the status of the zombie `j`. */
    function Collected(c: nat, j: nat, address: nat): World {
      if c < |tasks| && Collectable(j, address) then
        var z := tasks[j];
        this.(tasks := tasks[j := z.(state := Unused)],
              reaped := reaped + [Reaped(z.pid, tasks[c].pid, z.status)])
          .Answered(c, if address != 0 then [StatusWritten(c, address, z.status)] else [],
                    if address != 0 then Store32(now.memory, address - now.state.base, z.status) else now.memory,
                    z.pid)
      else this
    }
  }

  /** Recorded exit statuses are never changed or forgotten. */
  ghost predicate Grown(before: map<nat, nat>, after: map<nat, nat>) {
    forall pid :: pid in before ==> pid in after && after[pid] == before[pid]
  }

  /** A wait status as the shell reports it: 128 plus the signal, or the exit code. */
  function ShellStatus(status: nat): (r: nat)
    ensures status < 0x1_0000 ==> r < 256
  {
    if status % 128 != 0 then 128 + status % 128 else status / 256
  }

  /** What the launch reports for its init process so far. */
  function RootStatus(exited: map<nat, nat>): nat {
    if 1 in exited then ShellStatus(exited[1]) else 0
  }

  /** An exit code reaches the shell unchanged, a signal as 128 plus its number. */
  lemma ShellStatusOf(code: nat, signal: nat)
    requires code < 256 && 0 < signal < 128
    ensures ShellStatus(code * 256) == code && ShellStatus(signal) == 128 + signal
  {
  }

  /** Only the death of init decides what the launch reports, and nobody dies twice. */
  lemma DiedRoot(size: nat, w: World, c: nat, status: nat)
    requires w.Ok(size) && c < |w.tasks| && w.tasks[c].Live()
    ensures Grown(w.exited, w.Died(c, status).exited)
    ensures RootStatus(w.Died(c, status).exited) == if c == 0 then ShellStatus(status) else RootStatus(w.exited)
  {
    hide Killed, WaitersOk, ParentsOk, SavedOk, ViewsOk, KinOk, Reparented;
  }

  /** When init neither runs nor waits, it has exited. */
  lemma InitExited(size: nat, w: World)
    requires w.Ok(size) && |w.tasks| > 0 && !w.tasks[0].Live()
    ensures 1 in w.exited
  {
    hide WaitersOk, ParentsOk, SavedOk, ViewsOk, KinOk;
  }

  /** linux_task_init: one running task, everything else unused. */
  lemma InitialOk(size: nat, w: World)
    requires |w.tasks| == |w.snapshots| == |w.start| > 0 && w.nextPid == 2
    requires w.tasks[0].state == Running && w.tasks[0].pid == 1 && w.tasks[0].parent == 0 && w.tasks[0].status == 0
    requires forall t :: 1 <= t < |w.tasks| ==> w.tasks[t].state == Unused && w.tasks[t].status == 0
    requires forall t :: 0 <= t < |w.tasks| ==> |w.snapshots[t]| == size && w.start[t] == w.now
    requires w.trace == [] && w.reaped == [] && w.exited == map[] && w.parents == map[1 := 0]
    ensures w.Ok(size)
  {
  }

  lemma DeliverableFacts(size: nat, w: World, i: nat, j: nat)
    requires w.Ok(size) && i < |w.tasks| && j < |w.tasks|
    requires w.tasks[i].state == Waiting && w.tasks[j].state == Zombie
    ensures |w.tasks| == |w.snapshots| == |w.start|
    ensures w.tasks[j].pid < U32 && w.tasks[j].status < U32 && |w.snapshots[i]| == size
    ensures w.tasks[i].waitStatus != 0 ==>
      w.tasks[i].memory.base <= w.tasks[i].waitStatus && w.tasks[i].waitStatus + 4 <= w.tasks[i].memory.base + size
    ensures Replay(w.start, w.trace)[i] == Saved(w.tasks, w.snapshots, i)
  {
    assert View(w.tasks, w.snapshots, w.now, i) == Replay(w.start, w.trace)[i];
  }

  /** A delivery keeps the whole state consistent. */
  lemma DeliveredOk(size: nat, w: World, i: nat, j: nat)
    requires w.Ok(size) && i < |w.tasks| && j < |w.tasks|
    requires w.tasks[i].state == Waiting && w.tasks[j].state == Zombie && Matches(w.tasks[i], w.tasks[j], w.tasks[i].waitPid)
    ensures w.Deliverable(i, j) && w.Delivered(i, j).Ok(size)
  {
    hide Replay, Store32, Apply;
    DeliverableFacts(size, w, i, j);
    var t, z := w.tasks[i], w.tasks[j];
    ReapKeeps(w.tasks, w.nextPid, w.reaped, w.exited, i, j, t.waitPid, t.(state := Runnable, frame := t.frame.(eax := z.pid)));
    hide TreeOk, StatusesOk;
    var after := w.Delivered(i, j);
    KinReaped(w.tasks, after.tasks, w.nextPid, w.reaped, w.parents, i, j, t.waitPid);
    hide KinOk;
    DeliveredReplay(w.start, w.trace, i, t, z);
    DeliveredSaved(size, w.tasks, w.snapshots, after.tasks, after.snapshots, i, j);
    hide SavedOk, ViewsOk;
    ViewsMoved(w.tasks, w.snapshots, w.now, w.start, w.trace, after.tasks, after.snapshots, after.now, after.trace, i);
  }

  /** When only slot `i` and the dead changed, and `i` follows its replay, all views hold. */
  lemma ViewsMoved(tasks: seq<Task>, snapshots: seq<seq<Byte>>, now: Private, start: seq<Private>, trace: seq<Event>,
                   after: seq<Task>, copies: seq<seq<Byte>>, later: Private, more: seq<Event>, i: nat)
    requires ViewsOk(tasks, snapshots, now, start, trace) && |after| == |tasks| == |copies| && i < |tasks|
    requires Replay(start, more) == Replay(start, trace)[i := View(after, copies, later, i)]
    requires forall s :: 0 <= s < |tasks| && s != i && after[s].Live() ==>
      tasks[s].Live() && View(after, copies, later, s) == View(tasks, snapshots, now, s)
    ensures ViewsOk(after, copies, later, start, more)
  {
    hide Replay;
  }

  function WaitEvents(i: nat, t: Task, z: Task): seq<Event>
    requires z.pid < U32
  {
    (if t.waitStatus != 0 then [StatusWritten(i, t.waitStatus, z.status)] else []) + [Result(i, z.pid)]
  }

  lemma DeliveredReplay(start: seq<Private>, trace: seq<Event>, i: nat, t: Task, z: Task)
    requires i < |start| && z.pid < U32 && z.status < U32
    requires var m := Replay(start, trace)[i];
      && t.frame == m.frame && t.memory == m.state
      && (t.waitStatus != 0 ==> m.state.base <= t.waitStatus && t.waitStatus + 4 <= m.state.base + |m.memory|)
    ensures var m := Replay(start, trace)[i];
      Replay(start, trace + WaitEvents(i, t, z)) == Replay(start, trace)[i := m.(
        frame := t.frame.(eax := z.pid),
        memory := if t.waitStatus != 0 then Store32(m.memory, t.waitStatus - m.state.base, z.status) else m.memory)]
  {
    hide Replay, Apply, Store32;
    if t.waitStatus != 0 {
      StatusStep(start, trace, i, t.waitStatus, z.status);
      var one := trace + [StatusWritten(i, t.waitStatus, z.status)];
      ResultStep(start, one, i, z.pid);
      assert one + [Result(i, z.pid)] == trace + WaitEvents(i, t, z);
    } else {
      ResultStep(start, trace, i, z.pid);
      assert [Result(i, z.pid)] == WaitEvents(i, t, z);
    }
  }

  lemma DeliveredSaved(size: nat, tasks: seq<Task>, snapshots: seq<seq<Byte>>, after: seq<Task>, copies: seq<seq<Byte>>, i: nat, j: nat)
    requires SavedOk(size, tasks, snapshots) && i < |tasks| && j < |tasks| && |copies| == |snapshots| && |after| == |tasks|
    requires after == tasks[i := tasks[i].(state := Runnable, frame := after[i].frame)][j := tasks[j].(state := Unused)]
    requires i != j && tasks[i].state == Waiting
    requires copies == snapshots[i := copies[i]] && |copies[i]| == size
    ensures SavedOk(size, after, copies)
  {
  }

  /** When every live machine stays what it was, all views hold. */
  lemma ViewsSame(w: World, after: World)
    requires ViewsOk(w.tasks, w.snapshots, w.now, w.start, w.trace)
    requires |after.tasks| == |w.tasks| == |after.snapshots| && after.start == w.start && after.trace == w.trace
    requires forall s :: 0 <= s < |w.tasks| && after.tasks[s].Live() ==>
      w.tasks[s].Live() && View(after.tasks, after.snapshots, after.now, s) == View(w.tasks, w.snapshots, w.now, s)
    ensures ViewsOk(after.tasks, after.snapshots, after.now, after.start, after.trace)
  {
    hide Replay;
  }

  lemma ReplaceStatuses(tasks: seq<Task>, nextPid: nat, reaped: seq<Reaped>, exited: map<nat, nat>, c: nat, t: Task)
    requires StatusesOk(tasks, nextPid, reaped, exited) && c < |tasks| && tasks[c].Live()
    requires t.pid == tasks[c].pid && t.status == tasks[c].status && t.Live()
    ensures StatusesOk(tasks[c := t], nextPid, reaped, exited)
  {
  }

  /** Stopping the running task loses nothing. */
  lemma StoppedOk(size: nat, w: World, c: nat, state: RunState, waitPid: int, waitStatus: nat, later: Private)
    requires w.Ok(size) && c < |w.tasks| && w.tasks[c].state == Running
    requires forall t :: 0 <= t < |w.tasks| && t != c ==> w.tasks[t].state != Running
    requires LinuxMemory.StateOk(size, w.now.state) && |w.now.memory| == size
    requires state in {Runnable, Waiting, IoWaiting}
    requires state == Waiting ==>
      && (exists s :: 0 <= s < |w.tasks| && Matches(w.tasks[c], w.tasks[s], waitPid))
      && (waitStatus != 0 ==> w.now.state.base <= waitStatus && waitStatus + 4 <= w.now.state.base + size)
    ensures w.Stopped(c, state, waitPid, waitStatus).(now := later).Ok(size)
  {
    var after := w.Stopped(c, state, waitPid, waitStatus).(now := later);
    ParkTree(w.tasks, w.nextPid, c, after.tasks[c]);
    ReplaceStatuses(w.tasks, w.nextPid, w.reaped, w.exited, c, after.tasks[c]);
    KinKept(w.tasks, after.tasks, w.nextPid, w.reaped, w.parents);
    hide TreeOk, StatusesOk, Replay, KinOk;
    ViewsSame(w, after);
    hide ViewsOk;
  }

  /** Starting a stopped task resumes exactly its private machine. */
  lemma StartedOk(size: nat, w: World, c: nat)
    requires w.Ok(size) && c < |w.tasks| && w.tasks[c].Live()
    requires forall t :: 0 <= t < |w.tasks| ==> w.tasks[t].state != Running
    requires w.tasks[c].state != Waiting
    ensures w.Started(c).Ok(size)
    ensures LinuxMemory.StateOk(size, w.Started(c).now.state) && |w.Started(c).now.memory| == size
  {
    var after := w.Started(c);
    ParkTree(w.tasks, w.nextPid, c, after.tasks[c]);
    ReplaceStatuses(w.tasks, w.nextPid, w.reaped, w.exited, c, after.tasks[c]);
    KinKept(w.tasks, after.tasks, w.nextPid, w.reaped, w.parents);
    hide TreeOk, StatusesOk, Replay, KinOk;
    ViewsSame(w, after);
    hide ViewsOk;
  }

  /** A task put back to sleep before it ran: its snapshot is still its machine as long
      as nothing but the pipe moved. */
  lemma SleptOk(size: nat, w: World, c: nat, state: RunState, later: Private)
    requires w.Ok(size) && c < |w.tasks| && w.tasks[c].state == Running
    requires forall t :: 0 <= t < |w.tasks| && t != c ==> w.tasks[t].state != Running
    requires w.now == Saved(w.tasks, w.snapshots, c) && LinuxMemory.StateOk(size, w.now.state)
    requires state in {Runnable, IoWaiting}
    ensures w.(tasks := w.tasks[c := w.tasks[c].(state := state)], now := later).Ok(size)
  {
    StoppedOk(size, w, c, state, w.tasks[c].waitPid, w.tasks[c].waitStatus, later);
    assert w.snapshots[c := w.now.memory] == w.snapshots;
  }

  /** The running task's machine follows the events that name it. */
  lemma TookOk(size: nat, w: World, c: nat, more: seq<Event>, now: Private)
    requires w.Ok(size) && c < |w.tasks| && w.tasks[c].state == Running
    requires forall t :: 0 <= t < |w.tasks| && t != c ==> w.tasks[t].state != Running
    requires Replay(w.start, w.trace + more) == Replay(w.start, w.trace)[c := now]
    ensures w.(trace := w.trace + more, now := now).Ok(size)
  {
    hide TreeOk, StatusesOk, SavedOk, Replay, KinOk;
    var after := w.(trace := w.trace + more, now := now);
    forall s | 0 <= s < |after.tasks| && after.tasks[s].Live()
      ensures View(after.tasks, after.snapshots, after.now, s) == Replay(after.start, after.trace)[s]
    {
      assert View(w.tasks, w.snapshots, w.now, s) == Replay(w.start, w.trace)[s];
    }
  }

  /** What the running task believes is what is there. */
  lemma NowIs(size: nat, w: World, c: nat)
    requires w.Ok(size) && c < |w.tasks| && w.tasks[c].state == Running
    ensures |w.start| == |w.tasks| && Replay(w.start, w.trace)[c] == w.now
  {
    assert View(w.tasks, w.snapshots, w.now, c) == w.now;
  }

  lemma DiedOk(size: nat, w: World, c: nat, status: nat, later: Private)
    requires w.Ok(size) && c < |w.tasks| && w.tasks[c].state == Running && status < 0x1_0000
    requires forall t :: 0 <= t < |w.tasks| && t != c ==> w.tasks[t].state != Running
    ensures w.Died(c, status).(now := later).Ok(size)
  {
    DieKeeps(w.tasks, w.nextPid, w.reaped, w.exited, c, status);
    KinDied(w.tasks, w.nextPid, w.reaped, w.exited, w.parents, c, status);
    hide TreeOk, StatusesOk, Replay, Orphaned, KinOk, Reparented;
    DiedViews(size, w, c, Killed(w.tasks, c, status), later);
  }

  lemma DiedViews(size: nat, w: World, c: nat, killed: seq<Task>, later: Private)
    requires SavedOk(size, w.tasks, w.snapshots) && ViewsOk(w.tasks, w.snapshots, w.now, w.start, w.trace)
    requires |killed| == |w.tasks| && c < |w.tasks| && !killed[c].Live()
    requires forall t :: 0 <= t < |w.tasks| && t != c ==> w.tasks[t].state != Running
    requires forall t :: 0 <= t < |w.tasks| && t != c ==> killed[t] == w.tasks[t].(parent := killed[t].parent)
    ensures SavedOk(size, killed, w.snapshots)
    ensures ViewsOk(killed, w.snapshots, later, w.start, w.trace)
  {
    hide Replay;
  }

  /** fork: `child` starts as a copy of the running task `c`, which stays behind stopped
      with the child's pid as its result; the child's own result is 0. */
  function Forked(w: World, c: nat, child: nat): World
    requires c < |w.tasks| == |w.snapshots| && child < |w.tasks| && w.nextPid < U32
  {
    var pid := w.nextPid;
    var kept := w.tasks[c].(state := Runnable, frame := w.now.frame.(eax := pid), memory := w.now.state, cwd := w.now.cwd);
    var born := Task(Running, pid, w.tasks[c].pid, 0, 0, 0, Frame(0, 0, 0, 0, []), MemoryState(0, 0, 0), "");
    w.(tasks := w.tasks[c := kept][child := born], snapshots := w.snapshots[c := w.now.memory], nextPid := pid + 1,
       now := w.now.(frame := w.now.frame.(eax := 0)),
       trace := w.trace + [Cloned(child, c), Result(c, pid), Result(child, 0)],
       parents := w.parents[pid := w.tasks[c].pid])
  }

  lemma ForkedTree(tasks: seq<Task>, nextPid: nat, reaped: seq<Reaped>, exited: map<nat, nat>, c: nat, child: nat, kept: Task, born: Task)
    requires TreeOk(tasks, nextPid) && StatusesOk(tasks, nextPid, reaped, exited)
    requires c < |tasks| && tasks[c].Live() && child < |tasks| && tasks[child].state == Unused
    requires kept == tasks[c].(state := kept.state, frame := kept.frame, memory := kept.memory, cwd := kept.cwd)
    requires kept.Live() && kept.state != Waiting
    requires born.state == Running && born.pid == nextPid && born.parent == tasks[c].pid && born.status == 0
    ensures TreeOk(tasks[c := kept][child := born], nextPid + 1)
    ensures StatusesOk(tasks[c := kept][child := born], nextPid + 1, reaped, exited)
  {
    ForkedStatuses(tasks, nextPid, reaped, exited, c, child, kept, born);
    ParkTree(tasks, nextPid, c, kept);
    hide StatusesOk;
    var mid := tasks[c := kept];
    var after := mid[child := born];
    forall t | 0 <= t < |after| && after[t].state != Unused && after[t].parent != 0
      ensures LivePid(after, after[t].parent)
    {
      if t == child {
        assert after[c].Live() && after[c].pid == born.parent;
      } else {
        assert LivePid(mid, mid[t].parent);
        var s :| 0 <= s < |mid| && mid[s].Live() && mid[s].pid == mid[t].parent;
        assert after[s].Live();
      }
    }
    forall t | 0 <= t < |after| && after[t].state == Waiting ensures HasChild(after, t) {
      assert HasChild(mid, t);
      var s :| 0 <= s < |mid| && Matches(mid[t], mid[s], mid[t].waitPid);
      assert Matches(after[t], after[s], after[t].waitPid);
    }
  }

  lemma ForkedStatuses(tasks: seq<Task>, nextPid: nat, reaped: seq<Reaped>, exited: map<nat, nat>, c: nat, child: nat, kept: Task, born: Task)
    requires StatusesOk(tasks, nextPid, reaped, exited)
    requires c < |tasks| && tasks[c].Live() && child < |tasks| && tasks[child].state == Unused
    requires kept.pid == tasks[c].pid && kept.status == tasks[c].status && kept.Live()
    requires born.state == Running && born.pid == nextPid && born.status == 0
    ensures StatusesOk(tasks[c := kept][child := born], nextPid + 1, reaped, exited)
  {
  }

  lemma ForkedReplay(start: seq<Private>, trace: seq<Event>, c: nat, child: nat, pid: nat)
    requires c < |start| && child < |start| && c != child && pid < U32
    ensures var before := Replay(start, trace); var m := before[c];
      Replay(start, trace + [Cloned(child, c), Result(c, pid), Result(child, 0)]) ==
        before[child := m.(frame := m.frame.(eax := 0))][c := m.(frame := m.frame.(eax := pid))]
  {
    hide Replay, Apply;
    var one := trace + [Cloned(child, c)];
    ClonedStep(start, trace, child, c);
    var two := one + [Result(c, pid)];
    ResultStep(start, one, c, pid);
    ResultStep(start, two, child, 0);
    assert two + [Result(child, 0)] == trace + [Cloned(child, c), Result(c, pid), Result(child, 0)];
    var before := Replay(start, trace);
    assert Replay(start, one)[c] == before[c];
  }

  /** fork gives the child a private copy of everything, and nobody else notices. */
  lemma ForkedOk(size: nat, w: World, c: nat, child: nat)
    requires w.Ok(size) && c < |w.tasks| && child < |w.tasks| && w.nextPid < INT_MAX
    requires w.tasks[c].state == Running && w.tasks[child].state == Unused
    requires forall t :: 0 <= t < |w.tasks| && t != c ==> w.tasks[t].state != Running
    requires LinuxMemory.StateOk(size, w.now.state) && |w.now.memory| == size
    ensures Forked(w, c, child).Ok(size)
  {
    hide TreeOk, StatusesOk, SavedOk, ViewsOk, Replay, LinuxMemory.StateOk, KinOk;
    OkParts(size, w);
    var after := Forked(w, c, child);
    ForkedTree(w.tasks, w.nextPid, w.reaped, w.exited, c, child, after.tasks[c], after.tasks[child]);
    KinForked(w.tasks, after.tasks, w.nextPid, w.reaped, w.parents, c, child);
    ForkedReplay(w.start, w.trace, c, child, w.nextPid);
    NowIs(size, w, c);
    ForkedSaved(size, w, c, child, after);
    ForkedViews(w, after, c, child);
  }

  lemma OkParts(size: nat, w: World)
    requires w.Ok(size)
    ensures TreeOk(w.tasks, w.nextPid) && StatusesOk(w.tasks, w.nextPid, w.reaped, w.exited)
    ensures SavedOk(size, w.tasks, w.snapshots) && ViewsOk(w.tasks, w.snapshots, w.now, w.start, w.trace)
    ensures KinOk(w.tasks, w.nextPid, w.reaped, w.parents) && PidsOk(w.tasks, w.nextPid)
    ensures |w.tasks| == |w.snapshots| == |w.start|
  {
    hide StatusesOk, Replay;
  }

  lemma ForkedSaved(size: nat, w: World, c: nat, child: nat, after: World)
    requires SavedOk(size, w.tasks, w.snapshots) && c < |w.tasks| && child < |w.tasks| && c != child
    requires |after.tasks| == |w.tasks| && after.tasks == w.tasks[c := after.tasks[c]][child := after.tasks[child]]
    requires after.snapshots == w.snapshots[c := w.now.memory] && |w.now.memory| == size
    requires after.tasks[c].state == Runnable && after.tasks[child].state == Running && LinuxMemory.StateOk(size, after.tasks[c].memory)
    ensures SavedOk(size, after.tasks, after.snapshots)
  {
    hide LinuxMemory.StateOk;
  }

  lemma ForkedViews(w: World, after: World, c: nat, child: nat)
    requires ViewsOk(w.tasks, w.snapshots, w.now, w.start, w.trace)
    requires c < |w.tasks| && child < |w.tasks| && c != child
    requires |after.tasks| == |w.tasks| == |after.snapshots| && after.start == w.start
    requires Replay(after.start, after.trace) ==
      Replay(w.start, w.trace)[child := View(after.tasks, after.snapshots, after.now, child)][c := View(after.tasks, after.snapshots, after.now, c)]
    requires forall s :: 0 <= s < |w.tasks| && s != c && s != child && after.tasks[s].Live() ==>
      w.tasks[s].Live() && View(after.tasks, after.snapshots, after.now, s) == View(w.tasks, w.snapshots, w.now, s)
    ensures ViewsOk(after.tasks, after.snapshots, after.now, after.start, after.trace)
  {
    hide Replay;
  }

  /** The link to the files does not care about anything but liveness, pipe waits and bases. */
  lemma LinkKept(size: nat, tasks: seq<Task>, after: seq<Task>, files: map<Cell, nat>, pending: seq<PipeIo>, busy: int, busy': int)
    requires FilesLink(size, tasks, files, pending, busy) && |after| == |tasks|
    requires forall t :: 0 <= t < |tasks| ==> after[t].Live() == tasks[t].Live()
    requires forall t :: 0 <= t < |tasks| ==>
      ((after[t].state == IoWaiting || t == busy') <==> (tasks[t].state == IoWaiting || t == busy))
    requires forall t :: 0 <= t < |tasks| && pending[t].active ==> after[t].memory.base == tasks[t].memory.base
    ensures FilesLink(size, after, files, pending, busy')
  {
  }

  /** Starting a stopped task; it goes on with its transfer if it has one. */
  lemma LinkStarted(size: nat, tasks: seq<Task>, after: seq<Task>, files: map<Cell, nat>, pending: seq<PipeIo>, slot: nat)
    requires FilesLink(size, tasks, files, pending, -1) && slot < |tasks| && tasks[slot].state in {Runnable, IoWaiting}
    requires after == tasks[slot := tasks[slot].(state := Running)]
    ensures FilesLink(size, after, files, pending, if tasks[slot].state == IoWaiting then slot else -1)
    ensures tasks[slot].state == IoWaiting ==> pending[slot].active
  {
    LinkKept(size, tasks, after, files, pending, -1, if tasks[slot].state == IoWaiting then slot else -1);
  }

  /** After a resumption the task is blocked again exactly when its transfer is still pending. */
  lemma LinkResumed(size: nat, tasks: seq<Task>, files: map<Cell, nat>, pending: seq<PipeIo>, c: nat, io: PipeIo)
    requires FilesLink(size, tasks, files, pending, c) && c < |tasks| && tasks[c].state == Running
    requires io.vectors == pending[c].vectors
    ensures FilesLink(size, if io.active then tasks[c := tasks[c].(state := IoWaiting)] else tasks, files, pending[c := io], -1)
  {
  }

  // ------------------------------------------------------------ the scheduler's measure

  ghost function LiveSlots(tasks: seq<Task>): set<nat> {
    set t: nat | t < |tasks| && tasks[t].Live()
  }

  ghost function LiveCount(tasks: seq<Task>): nat {
    |LiveSlots(tasks)|
  }

  lemma SameLive(a: seq<Task>, b: seq<Task>)
    requires |a| == |b| && forall t :: 0 <= t < |a| ==> a[t].Live() == b[t].Live()
    ensures LiveCount(a) == LiveCount(b)
  {
    assert LiveSlots(a) == LiveSlots(b);
  }

  lemma OneDies(a: seq<Task>, b: seq<Task>, c: nat)
    requires |a| == |b| && c < |a| && a[c].Live() && !b[c].Live()
    requires forall t :: 0 <= t < |a| && t != c ==> a[t].Live() == b[t].Live()
    ensures LiveCount(b) < LiveCount(a)
  {
    assert LiveSlots(b) == LiveSlots(a) - {c};
  }

  ghost function Unwritten(io: PipeIo): nat {
    if io.active && io.total <= io.length then io.length - io.total else 0
  }

  ghost function AllUnwritten(pending: seq<PipeIo>): nat {
    if pending == [] then 0 else AllUnwritten(pending[..|pending| - 1]) + Unwritten(pending[|pending| - 1])
  }

  lemma {:induction false} UnwrittenUpdate(pending: seq<PipeIo>, t: nat, io: PipeIo)
    requires t < |pending|
    ensures AllUnwritten(pending[t := io]) == AllUnwritten(pending) - Unwritten(pending[t]) + Unwritten(io)
  {
    var n := |pending| - 1;
    if t < n {
      UnwrittenUpdate(pending[..n], t, io);
      assert pending[t := io][..n] == pending[..n][t := io];
    } else {
      assert pending[t := io][..n] == pending[..n];
    }
  }

  /** Resuming a ready transfer shrinks what is left to move. */
  lemma ResumedProgress(size: nat, base: nat, nonblock: bool, a: Side, b: Side, outcome: Outcome)
    requires size > 0 && a.Ok(size, base) && Resumed(size, base, nonblock, a, b, outcome)
    requires Ready(size, nonblock, a.io, a.pipe)
    ensures Unwritten(b.io) < Unwritten(a.io)
  {
    ReadyExactly(size, base, nonblock, a, b, outcome);
    ResumedKeepsPending(size, base, nonblock, a, b, outcome);
  }

  // ------------------------------------------------------------ a transfer seen by its task

  /** The bytes a finished transfer put into user memory, as events. */
  ghost function ReceivedBytes(c: nat, a: Side, b: Side): seq<Event>
    requires a.pipe.head < |a.pipe.data| && a.pipe.used <= |a.pipe.data|
  {
    if !a.io.writing && a.io.total < b.io.total <= |Addresses(a.io.vectors)| && b.io.total - a.io.total <= a.pipe.used
    then [Received(c, Addresses(a.io.vectors)[a.io.total..b.io.total], a.pipe.Contents()[..b.io.total - a.io.total])]
    else []
  }

  /** An outcome is always a legal register value, and a transfer that must wait, or is
      refused, changed no memory. */
  lemma ResumedOutcome(size: nat, base: nat, nonblock: bool, a: Side, b: Side, outcome: Outcome)
    requires size > 0 && a.Ok(size, base) && Resumed(size, base, nonblock, a, b, outcome)
    ensures outcome.Done? ==> -EAGAIN <= outcome.value <= INT_MAX
    ensures !outcome.Done? ==> b.memory == a.memory
  {
    hide Addresses, Gather, Scatter, InWindow, VectorsInWindow;
    TransferInWindow(size, base, a);
  }

  /** What arrived in memory is what the events say. */
  lemma ResumedCopies(size: nat, base: nat, nonblock: bool, a: Side, b: Side, outcome: Outcome, c: nat)
    requires size > 0 && a.Ok(size, base) && Resumed(size, base, nonblock, a, b, outcome)
    ensures a.pipe.head < |a.pipe.data| && a.pipe.used <= |a.pipe.data|
    ensures var events := ReceivedBytes(c, a, b);
      if events == [] then b.memory == a.memory
      else
        && events == [events[0]] && events[0].Received? && events[0].task == c
        && |events[0].addresses| == |events[0].data| && InWindow(base, |a.memory|, events[0].addresses)
        && b.memory == Scatter(a.memory, base, events[0].addresses, events[0].data)
  {
    hide Gather, Scatter, VectorsInWindow, TotalLength;
    TransferInWindow(size, base, a);
    ResumedIdle(size, base, nonblock, a, b, outcome);
  }

  /** A transfer touches user memory only by delivering the bytes it read. */
  lemma ResumedMemory(size: nat, base: nat, nonblock: bool, a: Side, b: Side, outcome: Outcome,
                      start: seq<Private>, trace: seq<Event>, c: nat)
    requires size > 0 && a.Ok(size, base) && Resumed(size, base, nonblock, a, b, outcome)
    requires c < |start| && Replay(start, trace)[c].memory == a.memory && Replay(start, trace)[c].state.base == base
    ensures outcome.Done? ==> -EAGAIN <= outcome.value <= INT_MAX
    ensures !outcome.Done? ==> b.memory == a.memory
    ensures a.pipe.head < |a.pipe.data| && a.pipe.used <= |a.pipe.data|
    ensures Replay(start, trace + ReceivedBytes(c, a, b))
         == Replay(start, trace)[c := Replay(start, trace)[c].(memory := b.memory)]
  {
    hide Resumed, Side.Ok, Replay, Apply, ReceivedBytes, Scatter, InWindow;
    ResumedOutcome(size, base, nonblock, a, b, outcome);
    ResumedCopies(size, base, nonblock, a, b, outcome, c);
    var events := ReceivedBytes(c, a, b);
    if events == [] {
      assert trace + events == trace;
    } else {
      ReceivedStep(start, trace, c, events[0].addresses, events[0].data);
    }
  }

  lemma ResumedIdle(size: nat, base: nat, nonblock: bool, a: Side, b: Side, outcome: Outcome)
    requires size > 0 && a.Ok(size, base) && Resumed(size, base, nonblock, a, b, outcome)
    ensures a.io.writing || b.io.total <= a.io.total ==> b.memory == a.memory
    ensures !a.io.writing && b.io.total > a.io.total ==>
      b.io.total <= |Addresses(a.io.vectors)| && b.io.total - a.io.total <= a.pipe.used
  {
    TransferInWindow(size, base, a);
  }

  /** All a scheduler needs to know about one resumption of a ready transfer. */
  lemma {:induction false} StepSeen(size: nat, base: nat, nonblock: bool, a: Side, b: Side, outcome: Outcome,
                 pending: seq<PipeIo>, start: seq<Private>, trace: seq<Event>, c: nat)
    requires size > 0 && a.Ok(size, base) && Resumed(size, base, nonblock, a, b, outcome)
    requires Ready(size, nonblock, a.io, a.pipe)
    requires c < |pending| && pending[c] == a.io
    requires c < |start| && Replay(start, trace)[c].memory == a.memory && Replay(start, trace)[c].state.base == base
    ensures b.io.active == outcome.Wait?
    ensures AllUnwritten(pending[c := b.io]) < AllUnwritten(pending)
    ensures outcome.Done? ==> -EAGAIN <= outcome.value <= INT_MAX
    ensures !outcome.Done? ==> b.memory == a.memory
    ensures |b.memory| == |a.memory|
    ensures a.pipe.head < |a.pipe.data| && a.pipe.used <= |a.pipe.data|
    ensures Replay(start, trace + ReceivedBytes(c, a, b))
         == Replay(start, trace)[c := Replay(start, trace)[c].(memory := b.memory)]
    ensures forall i :: 0 <= i < |ReceivedBytes(c, a, b)| ==> ReceivedBytes(c, a, b)[i].task == c && ReceivedBytes(c, a, b)[i].Received?
  {
    ResumedProgress(size, base, nonblock, a, b, outcome);
    UnwrittenUpdate(pending, c, b.io);
    ReadyExactly(size, base, nonblock, a, b, outcome);
    ResumedMemory(size, base, nonblock, a, b, outcome, start, trace, c);
    ResumedKeepsPending(size, base, nonblock, a, b, outcome);
    hide Resumed, Replay;
  }

  // ------------------------------------------------------------ waking and choosing

  lemma NoDeadChild(tasks: seq<Task>, i: nat)
    requires i < |tasks| && (tasks[i].state != Waiting || DeadChild(tasks, i, tasks[i].waitPid, 0) == |tasks|)
    ensures !Owed(tasks, i)
  {
  }

  lemma NotWaiting(tasks: seq<Task>, i: nat)
    requires i < |tasks| && tasks[i].state != Waiting
    ensures !Owed(tasks, i)
  {
  }

  lemma WokenStep(before: seq<Task>, tasks: seq<Task>, after: seq<Task>, i: nat, j: nat)
    requires WokenFrom(before, tasks) && i < |tasks| && j < |tasks| && i != j
    requires tasks[i].state == Waiting && tasks[j].state == Zombie
    requires |after| == |tasks|
    requires after == tasks[i := tasks[i].(state := Runnable, frame := after[i].frame)][j := tasks[j].(state := Unused)]
    requires after[i].frame == tasks[i].frame.(eax := after[i].frame.eax)
    ensures WokenFrom(before, after)
    ensures before[i].state == Waiting
    ensures forall t :: 0 <= t < |tasks| && Owed(after, t) ==> Owed(tasks, t)
  {
    forall t | 0 <= t < |tasks| && Owed(after, t) ensures Owed(tasks, t) {
      var s :| 0 <= s < |after| && after[s].state == Zombie && Matches(after[t], after[s], after[t].waitPid);
      assert tasks[s].state == Zombie && Matches(tasks[t], tasks[s], tasks[t].waitPid);
    }
  }

  /** Going round from `c`, every slot is met within one turn. */
  lemma EverySlotMet(n: nat, c: nat, t: nat)
    requires c < n && t < n
    ensures exists k :: 1 <= k <= n && Wrap(n, c, k) == t
  {
    assert Wrap(n, c, if t > c then t - c else t + n - c) == t;
  }

  // ------------------------------------------------------------ one round of the scheduler

  lemma WokenLive(a: seq<Task>, b: seq<Task>)
    requires WokenFrom(a, b)
    ensures LiveCount(a) == LiveCount(b)
    ensures forall t :: 0 <= t < |b| && b[t].state in {Waiting, IoWaiting} ==> a[t].state in {Waiting, IoWaiting}
  {
    SameLive(a, b);
  }

  lemma SameStateLive(a: seq<Task>, c: nat, state: RunState)
    requires c < |a| && a[c].Live() && state != Unused && state != Zombie
    ensures LiveCount(a[c := a[c].(state := state)]) == LiveCount(a)
  {
    SameLive(a, a[c := a[c].(state := state)]);
  }

  lemma KilledLive(tasks: seq<Task>, c: nat, status: nat)
    requires c < |tasks| && tasks[c].Live()
    ensures LiveCount(Killed(tasks, c, status)) < LiveCount(tasks)
    ensures forall t :: 0 <= t < |tasks| && t != c ==> Killed(tasks, c, status)[t].state == tasks[t].state
  {
    hide Orphaned;
    OneDies(tasks, Killed(tasks, c, status), c);
  }

  /** The files of a dead task are closed, and nothing else about the link changes. */
  lemma LinkDied(size: nat, tasks: seq<Task>, files: map<Cell, nat>, pending: seq<PipeIo>, c: nat, status: nat, after: seq<PipeIo>)
    requires FilesLink(size, tasks, files, pending, -1) && c < |tasks| && tasks[c].state == Running
    requires after == pending[c := pending[c].(active := false)]
    ensures FilesLink(size, Killed(tasks, c, status), WithoutTask(files, c), after, -1)
  {
    hide Orphaned;
  }

  lemma OrphanStep(tasks: seq<Task>, c: nat, i: nat)
    requires c < |tasks| && 0 < i < |tasks|
    ensures var before := Orphaned(tasks, c, i);
      && before[i] == tasks[i] && before[c].pid == tasks[c].pid && before[0] == tasks[0]
      && Orphaned(tasks, c, i + 1) ==
           if tasks[i].state != Unused && tasks[i].parent == tasks[c].pid
           then before[i := tasks[i].(parent := if tasks[0].state != Zombie then 1 else 0)]
           else before
  {
  }

  lemma OrphanNone(tasks: seq<Task>, c: nat)
    requires c < |tasks|
    ensures Orphaned(tasks, c, 1) == tasks
  {
  }

  // ------------------------------------------------------------ system calls on the tables

  /** Lowest unused slot at or above `from`. */
  function FreeSlot(tasks: seq<Task>, from: nat): (r: nat)
    requires from <= |tasks|
    ensures from <= r <= |tasks|
    ensures forall t :: from <= t < r ==> tasks[t].state != Unused
    ensures r < |tasks| ==> tasks[r].state == Unused
    decreases |tasks| - from
  {
    if from < |tasks| && tasks[from].state != Unused then FreeSlot(tasks, from + 1) else from
  }

  /** Lowest slot at or above `from` holding a dead child of `c` that answers to `pid`. */
  function DeadChild(tasks: seq<Task>, c: nat, pid: int, from: nat): (r: nat)
    requires from <= |tasks| && c < |tasks|
    ensures from <= r <= |tasks|
    ensures forall t :: from <= t < r ==> !(tasks[t].state == Zombie && Matches(tasks[c], tasks[t], pid))
    ensures r < |tasks| ==> tasks[r].state == Zombie && Matches(tasks[c], tasks[r], pid)
    decreases |tasks| - from
  {
    if from < |tasks| && !(tasks[from].state == Zombie && Matches(tasks[c], tasks[from], pid))
    then DeadChild(tasks, c, pid, from + 1) else from
  }

  datatype WaitPlan = Answer(value: int) | Reap(slot: nat) | Block

  /** What waitpid does, as a function of the tables and its arguments. */
  ghost function WaitPlanOf(tasks: seq<Task>, c: nat, frame: Frame, writable: bool): (plan: WaitPlan)
    requires c < |tasks|
    ensures plan.Answer? ==> -ENOSYS <= plan.value <= 0
  {
    var pid := ToInt(frame.ebx);
    var dead := DeadChild(tasks, c, pid, 0);
    if frame.edx > 1 then Answer(-EINVAL)
    else if pid < -1 then Answer(-ENOSYS)
    else if frame.ecx != 0 && !writable then Answer(-EFAULT)
    else if dead < |tasks| then Reap(dead)
    else if forall t :: 0 <= t < |tasks| ==> !Matches(tasks[c], tasks[t], pid) then Answer(-ECHILD)
    else if frame.edx == 1 then Answer(0)
    else Block
  }

  /** Is the task in slot `t` a child the task in slot `c` may ask for by `pid`? */
  ghost predicate Answers(tasks: seq<Task>, c: nat, t: nat, pid: int)
    requires c < |tasks|
  {
    && t < |tasks| && tasks[t].state != Unused && tasks[t].parent == tasks[c].pid
    && (tasks[t].pid == pid || pid == 0 || pid < 0)
  }

  /** The pid a register holds. */
  ghost function Signed(w: Word): int {
    if w < 0x8000_0000 then w else w - 0x1_0000_0000
  }

  /** waitpid, case by case: which argument is refused with which error, when a child is
      collected and which, when there is none to wait for, and when the caller sleeps. */
  lemma WaitPlanMeans(tasks: seq<Task>, c: nat, frame: Frame, writable: bool)
    requires c < |tasks|
    ensures var plan, pid := WaitPlanOf(tasks, c, frame, writable), Signed(frame.ebx);
      var good := frame.edx <= 1 && pid >= -1 && (frame.ecx == 0 || writable);
      var child := exists t: nat :: Answers(tasks, c, t, pid);
      var dead := exists t: nat :: Answers(tasks, c, t, pid) && tasks[t].state == Zombie;
      && (plan == Answer(-22) <==> frame.edx > 1)
      && (plan == Answer(-38) <==> frame.edx <= 1 && pid < -1)
      && (plan == Answer(-14) <==> frame.edx <= 1 && pid >= -1 && frame.ecx != 0 && !writable)
      && (plan == Answer(-10) <==> good && !child)
      && (plan == Answer(0) <==> good && child && !dead && frame.edx == 1)
      && (plan == Block <==> good && child && !dead && frame.edx == 0)
      && (plan.Reap? <==> good && dead)
      && (plan.Reap? ==> Answers(tasks, c, plan.slot, pid) && tasks[plan.slot].state == Zombie)
      && (forall t: nat :: plan.Reap? && t < plan.slot && Answers(tasks, c, t, pid) ==> tasks[t].state != Zombie)
  {
    var pid := Signed(frame.ebx);
    forall t: nat | t < |tasks| ensures Answers(tasks, c, t, pid) <==> Matches(tasks[c], tasks[t], pid) {
    }
  }

  /** Who is owed a status, and of whom. */
  lemma OwedMeans(tasks: seq<Task>, t: nat)
    requires t < |tasks|
    ensures Owed(tasks, t) <==>
      tasks[t].state == Waiting && exists s: nat :: Answers(tasks, t, s, tasks[t].waitPid) && tasks[s].state == Zombie
  {
    forall s: nat | s < |tasks| ensures Answers(tasks, t, s, tasks[t].waitPid) <==> Matches(tasks[t], tasks[s], tasks[t].waitPid) {
    }
  }

  /** What collecting leaves behind: the child's pid as result, its status in memory where asked
      for, its slot free, and one entry more in the log, for its parent on record. */
  lemma CollectedMeans(size: nat, w: World, c: nat, j: nat, address: nat, pid: int)
    requires w.Ok(size) && c < |w.tasks| && w.Collectable(j, address) && Answers(w.tasks, c, j, pid) && w.tasks[j].state == Zombie
    ensures var after, child := w.Collected(c, j, address), w.tasks[j].pid;
      && after.now.frame == w.now.frame.(eax := child) && (pid <= 0 || child == pid)
      && child in w.parents && w.parents[child] == w.tasks[c].pid && child in w.exited
      && after.reaped == w.reaped + [Reaped(child, w.tasks[c].pid, w.exited[child])]
      && j < |after.tasks| && after.tasks == w.tasks[j := after.tasks[j]] && after.tasks[j].state == Unused
      && |after.now.memory| == |w.now.memory|
      && (address == 0 ==> after.now.memory == w.now.memory)
      && (address != 0 ==>
            && 0 <= address - w.now.state.base && address - w.now.state.base + 4 <= |after.now.memory|
            && Load32(after.now.memory, address - w.now.state.base) == w.exited[child]
            && forall i :: 0 <= i < |w.now.memory| && !(address - w.now.state.base <= i < address - w.now.state.base + 4) ==>
                 after.now.memory[i] == w.now.memory[i])
  {
    hide TreeOk, SavedOk, ViewsOk, Replay, Store32, Load32;
    if address != 0 {
      StoreThenLoad(w.now.memory, address - w.now.state.base, w.tasks[j].status);
    }
  }

  /** A running parent collects a dead child. */
  lemma ReapedOk(size: nat, w: World, c: nat, j: nat, pid: int)
    requires w.Ok(size) && c < |w.tasks| && j < |w.tasks| && w.tasks[c].state == Running
    requires w.tasks[j].state == Zombie && Matches(w.tasks[c], w.tasks[j], pid)
    ensures w.tasks[j].pid < U32 && w.tasks[j].status < U32
    ensures w.(tasks := w.tasks[j := w.tasks[j].(state := Unused)],
               reaped := w.reaped + [Reaped(w.tasks[j].pid, w.tasks[c].pid, w.tasks[j].status)]).Ok(size)
  {
    ReapKeeps(w.tasks, w.nextPid, w.reaped, w.exited, c, j, pid, w.tasks[c]);
    assert w.tasks[c := w.tasks[c]] == w.tasks;
    KinReaped(w.tasks, w.tasks[j := w.tasks[j].(state := Unused)], w.nextPid, w.reaped, w.parents, c, j, pid);
    hide TreeOk, Replay, KinOk;
  }

  /** Collecting accounts for every change to the collector's machine. */
  lemma CollectedReplay(size: nat, w: World, c: nat, j: nat, address: nat)
    requires w.Ok(size) && c < |w.tasks| && w.tasks[c].state == Running && w.Collectable(j, address)
    ensures var z := w.tasks[j];
      var events := if address != 0 then [StatusWritten(c, address, z.status)] else [];
      Replay(w.start, w.trace + events) == Replay(w.start, w.trace)[c := w.now.(memory :=
        if address != 0 then Store32(w.now.memory, address - w.now.state.base, z.status) else w.now.memory)]
  {
    hide World.Ok, Replay, Apply, Store32;
    NowIs(size, w, c);
    if address != 0 {
      StatusStep(w.start, w.trace, c, address, w.tasks[j].status);
    } else {
      assert w.trace + [] == w.trace;
    }
  }

  /** Freeing a dead task's slot concerns no file. */
  lemma LinkReaped(size: nat, tasks: seq<Task>, files: map<Cell, nat>, pending: seq<PipeIo>, j: nat)
    requires FilesLink(size, tasks, files, pending, -1) && j < |tasks| && tasks[j].state == Zombie
    ensures FilesLink(size, tasks[j := tasks[j].(state := Unused)], files, pending, -1)
  {
  }

  /** A transfer that must wait blocks the task that asked for it. */
  lemma LinkBlocked(size: nat, tasks: seq<Task>, after: seq<Task>, files: map<Cell, nat>, pending: seq<PipeIo>, c: nat, io: PipeIo)
    requires FilesLink(size, tasks, files, pending, -1) && c < |tasks| && tasks[c].state == Running
    requires |after| == |tasks| && after == tasks[c := after[c]] && after[c].Live()
    requires io.active <==> after[c].state == IoWaiting
    requires io.active ==> VectorsInWindow(after[c].memory.base, size, io.vectors)
    ensures FilesLink(size, after, files, pending[c := io], -1)
  {
  }

  /** Descriptors come and go only for the running task. */
  lemma LinkCells(size: nat, tasks: seq<Task>, files: map<Cell, nat>, pending: seq<PipeIo>, c: nat, files': map<Cell, nat>)
    requires FilesLink(size, tasks, files, pending, -1) && c < |tasks| && tasks[c].Live()
    requires forall cell :: cell in files' ==> cell in files || cell.task == c
    ensures FilesLink(size, tasks, files', pending, -1)
  {
  }

  /** The child of a fork holds copies of its parent's descriptors and has nothing pending. */
  lemma LinkForked(size: nat, tasks: seq<Task>, files: map<Cell, nat>, pending: seq<PipeIo>, c: nat, child: nat,
                   fds: nat, after: seq<Task>)
    requires FilesLink(size, tasks, files, pending, -1) && c < |tasks| && child < |tasks|
    requires tasks[c].state == Running && tasks[child].state == Unused
    requires |after| == |tasks| && after == tasks[c := after[c]][child := after[child]] && after[c].state == Runnable && after[child].state == Running
    ensures forall cell :: cell in files ==> cell.task != child
    ensures FilesLink(size, after, WithCopies(files, c, child, fds), pending[child := pending[child].(active := false)], -1)
  {
    forall cell ensures cell in WithCopies(files, c, child, fds) ==> cell in files || cell.task == child {
      WithCopiesAt(files, c, child, fds, cell);
    }
  }

  ghost function PairEvents(c: nat, address: nat, a: Word, b: Word): seq<Event> {
    [Received(c, Run(IoVector(address, 8)), Bytes32(a) + Bytes32(b))]
  }

  /** What a call of pipe with this result leaves in its caller's memory. */
  ghost function PipeEvents(files: map<Cell, nat>, c: nat, fds: nat, result: int, address: nat): seq<Event> {
    if result != 0 || fds >= U32 then []
    else
      var a := FreeFd(files, c, fds, 0);
      if a == fds then [] else PairEvents(c, address, a, FreeFd(files, c, fds, a + 1))
  }

  /** Two stored words are eight received bytes. */
  lemma PairReceived(start: seq<Private>, trace: seq<Event>, c: nat, address: nat, a: Word, b: Word)
    requires c < |start|
    requires var m := Replay(start, trace)[c]; m.state.base <= address && address - m.state.base + 8 <= |m.memory|
    ensures var m := Replay(start, trace)[c];
      Replay(start, trace + PairEvents(c, address, a, b)) == Replay(start, trace)[c :=
        m.(memory := Store32(Store32(m.memory, address - m.state.base, a), address - m.state.base + 4, b))]
  {
    hide Replay, Apply;
    var m := Replay(start, trace)[c];
    var at := address - m.state.base;
    ScatterChunk(m.memory, m.state.base, address, Bytes32(a) + Bytes32(b));
    assert Splice(m.memory, at, Bytes32(a) + Bytes32(b)) == Store32(Store32(m.memory, at, a), at + 4, b);
    ReceivedStep(start, trace, c, Run(IoVector(address, 8)), Bytes32(a) + Bytes32(b));
  }

  /** Two more error numbers of Linux on i386. */
  lemma MoreErrorNumbers()
    ensures ECHILD == 10 && ENOSYS == 38
  {
  }
}
