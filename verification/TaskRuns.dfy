/** linux_task.c over stretches of a run: what the scheduler may do to the tasks it does not
    run, what it may do to the pipes, and whom it runs next. */
module TaskRuns {
  import opened Bytes
  import opened PipeBytes
  import opened FileTables
  import opened TaskTables

  // ------------------------------------------------------------ what a blocked task asked for

  /** Was this status collected between the two logs? */
  ghost predicate Since(before: seq<Reaped>, after: seq<Reaped>, r: Reaped) {
    exists k :: |before| <= k < |after| && after[k] == r
  }

  /** The next addresses a transfer reads into. */
  predicate NextBytes(io: PipeIo, addresses: seq<nat>) {
    io.total + |addresses| <= |Addresses(io.vectors)| &&
    addresses == Addresses(io.vectors)[io.total..io.total + |addresses|]
  }

  /** A status goes to the address the waiting task gave, with the result that names the child,
      and it was collected for that task. */
  ghost predicate StatusAsked(w: World, reaped: seq<Reaped>, more: seq<Event>, i: nat)
    requires i < |more| && more[i].StatusWritten?
  {
    var c := more[i].task;
    && c < |w.tasks| && w.tasks[c].state == Waiting && more[i].address == w.tasks[c].waitStatus != 0
    && i + 1 < |more| && more[i + 1].Result? && more[i + 1].task == c
    && Since(w.reaped, reaped, Reaped(more[i + 1].value, w.tasks[c].pid, more[i].status))
  }

  /** Bytes arrive only at a task that reads, at the next addresses of its vectors, and their
      number is its result. */
  ghost predicate BytesAsked(w: World, io: FileState, more: seq<Event>, i: nat)
    requires i < |more| && more[i].Received?
  {
    var c := more[i].task;
    && c < |w.tasks| && w.tasks[c].state == IoWaiting && io.OnPipe(c) && !io.pending[c].writing
    && NextBytes(io.pending[c], more[i].addresses) && |more[i].addresses| == |more[i].data| > 0
    && i + 1 < |more| && more[i + 1].Result? && more[i + 1].task == c && more[i + 1].value == |more[i].data|
  }

  /** What a blocked transfer may answer: a writer all its bytes, unless its file was made
      non-blocking meanwhile; a reader what arrived, or 0 at the end, or EAGAIN likewise. */
  predicate AnswerOk(io: PipeIo, nonblock: bool, arrived: bool, value: Word) {
    if io.writing then value == io.length || (nonblock && (value < io.length || value == ToWord(-EAGAIN)))
    else arrived || value == 0 || (nonblock && value == ToWord(-EAGAIN))
  }

  /** A result is that of the call the task was blocked in. */
  ghost predicate ResultAsked(w: World, io: FileState, reaped: seq<Reaped>, more: seq<Event>, i: nat)
    requires i < |more| && more[i].Result?
  {
    var c := more[i].task;
    && c < |w.tasks|
    && if w.tasks[c].state == Waiting then
         && (exists status :: Since(w.reaped, reaped, Reaped(more[i].value, w.tasks[c].pid, status)))
         && (w.tasks[c].waitPid <= 0 || more[i].value == w.tasks[c].waitPid)
         && (w.tasks[c].waitStatus != 0 ==> i > 0 && more[i - 1].StatusWritten? && more[i - 1].task == c)
       else
         && w.tasks[c].state == IoWaiting && io.OnPipe(c)
         && AnswerOk(io.pending[c], io.End(c).nonblock, i > 0 && more[i - 1].Received? && more[i - 1].task == c, more[i].value)
  }

  /** Event `i` finishes, or helps finish, the very call its task was blocked in. */
  ghost predicate Asked(w: World, io: FileState, reaped: seq<Reaped>, more: seq<Event>, i: nat)
    requires i < |more|
  {
    match more[i]
    case Ran(_, _) => false
    case Cloned(_, _) => false
    case StatusWritten(_, _, _) => StatusAsked(w, reaped, more, i)
    case Received(_, _, _) => BytesAsked(w, io, more, i)
    case Result(_, _) => ResultAsked(w, io, reaped, more, i)
  }

  ghost predicate AllAsked(w: World, io: FileState, reaped: seq<Reaped>, more: seq<Event>) {
    forall i: nat :: i < |more| ==> Asked(w, io, reaped, more, i)
  }

  /** Nobody an event names is still blocked. */
  ghost predicate AllAwake(tasks: seq<Task>, more: seq<Event>) {
    forall i: nat :: i < |more| ==> more[i].task < |tasks| && tasks[more[i].task].state !in {Waiting, IoWaiting}
  }

  // ------------------------------------------------------------ where the bytes came from

  /** The bytes of an event left the pipe its task reads. */
  function Drain(io: FileState, delivered: seq<seq<Byte>>, e: Event): (d: seq<seq<Byte>>)
    ensures |d| == |delivered|
  {
    if e.Received? && io.OnPipe(e.task) && io.PipeOf(e.task) < |delivered| then
      delivered[io.PipeOf(e.task) := delivered[io.PipeOf(e.task)] + e.data]
    else delivered
  }

  /** What every pipe has delivered once these events happened. */
  function Drained(io: FileState, more: seq<Event>): (d: seq<seq<Byte>>)
    ensures |d| == |io.delivered|
  {
    if more == [] then io.delivered
    else Drain(io, Drained(io, more[..|more| - 1]), more[|more| - 1])
  }

  /** Histories of pipes only grow. */
  ghost predicate Accepted(io: FileState, later: FileState) {
    && |later.journal| == |io.journal| && |later.delivered| == |io.delivered|
    && (forall p :: 0 <= p < |io.journal| ==> io.journal[p] <= later.journal[p])
    && (forall p :: 0 <= p < |io.delivered| ==> io.delivered[p] <= later.delivered[p])
  }

  // ------------------------------------------------------------ what stays

  /** The transfer of slot `t` is still the same request; a reader's has not moved. */
  ghost predicate SameRequest(io: FileState, later: FileState, t: nat) {
    && (io.OnPipe(t) <==> later.OnPipe(t))
    && (io.OnPipe(t) ==>
          && later.PipeOf(t) == io.PipeOf(t) && later.End(t).nonblock == io.End(t).nonblock
          && later.pending[t] == io.pending[t].(active := later.pending[t].active, index := later.pending[t].index,
                                                offset := later.pending[t].offset, total := later.pending[t].total)
          && (!io.pending[t].writing ==> later.pending[t] == io.pending[t]))
  }

  /** Who is still blocked was blocked before, in the same call. */
  ghost predicate Steady(a: World, io: FileState, b: World, later: FileState) {
    && |b.tasks| == |a.tasks|
    && forall t :: 0 <= t < |b.tasks| && b.tasks[t].state in {Waiting, IoWaiting} ==>
         && a.tasks[t].state == b.tasks[t].state && a.tasks[t].pid == b.tasks[t].pid
         && a.tasks[t].waitPid == b.tasks[t].waitPid && a.tasks[t].waitStatus == b.tasks[t].waitStatus
         && (b.tasks[t].state == IoWaiting ==> SameRequest(io, later, t))
  }

  /** No slot is given to another process, and a live one is lost only to a recorded exit. */
  ghost predicate SlotsFollow(a: seq<Task>, b: seq<Task>, exited: map<nat, nat>) {
    && |b| == |a|
    && forall t :: 0 <= t < |a| ==>
         && (b[t].state != Unused ==> a[t].state != Unused && b[t].pid == a[t].pid)
         && (b[t].Live() ==> a[t].Live())
         && (a[t].Live() && !b[t].Live() ==> a[t].pid in exited)
  }

  /** `b` continues `a` without the tasks running: histories only grew, every new event finished
      the very call its task was blocked in, the bytes it brought left the pipe it read, and
      nothing else was done to any task. */
  ghost predicate LeadsTo(a: World, io: FileState, b: World, later: FileState) {
    && b.start == a.start && a.trace <= b.trace && a.reaped <= b.reaped && Grown(a.exited, b.exited)
    && AllAsked(a, io, b.reaped, b.trace[|a.trace|..]) && AllAwake(b.tasks, b.trace[|a.trace|..])
    && later.delivered == Drained(io, b.trace[|a.trace|..])
    && Accepted(io, later)
    && Steady(a, io, b, later)
    && SlotsFollow(a.tasks, b.tasks, b.exited)
    && KinFollow(a.parents, b.parents, b.exited)
  }

  // ------------------------------------------------------------ stretches compose

  lemma {:induction false} DrainedCompose(io: FileState, mid: FileState, first: seq<Event>, second: seq<Event>)
    requires mid.delivered == Drained(io, first)
    requires forall i :: 0 <= i < |second| && second[i].Received? ==>
      io.OnPipe(second[i].task) && mid.OnPipe(second[i].task) && mid.PipeOf(second[i].task) == io.PipeOf(second[i].task)
    ensures Drained(mid, second) == Drained(io, first + second)
    decreases |second|
  {
    if second == [] {
      assert first + second == first;
    } else {
      var n := |second| - 1;
      DrainedCompose(io, mid, first, second[..n]);
      assert (first + second)[..|first| + n] == first + second[..n];
    }
  }

  lemma AskedEarlier(w: World, io: FileState, before: seq<Reaped>, reaped: seq<Reaped>, first: seq<Event>, second: seq<Event>, i: nat)
    requires i < |first| && before <= reaped && Asked(w, io, before, first, i)
    ensures Asked(w, io, reaped, first + second, i)
  {
    var all := first + second;
    assert all[i] == first[i] && (i > 0 ==> all[i - 1] == first[i - 1]) && (i + 1 < |first| ==> all[i + 1] == first[i + 1]);
    forall r | Since(w.reaped, before, r) ensures Since(w.reaped, reaped, r) {
      var k :| |w.reaped| <= k < |before| && before[k] == r;
      assert reaped[k] == r;
    }
  }

  lemma AskedLater(a: World, io: FileState, b: World, mid: FileState, reaped: seq<Reaped>, first: seq<Event>, second: seq<Event>, i: nat)
    requires i < |second| && a.reaped <= b.reaped && Steady(a, io, b, mid) && Asked(b, mid, reaped, second, i)
    ensures Asked(a, io, reaped, first + second, |first| + i)
    ensures second[i].Received? ==>
      io.OnPipe(second[i].task) && mid.OnPipe(second[i].task) && mid.PipeOf(second[i].task) == io.PipeOf(second[i].task)
  {
    var all, k := first + second, |first| + i;
    assert all[k] == second[i] && (i > 0 ==> all[k - 1] == second[i - 1]) && (i + 1 < |second| ==> all[k + 1] == second[i + 1]);
    forall r | Since(b.reaped, reaped, r) ensures Since(a.reaped, reaped, r) {
    }
    if second[i].Result? && b.tasks[second[i].task].state == IoWaiting && !io.pending[second[i].task].writing {
      assert mid.pending[second[i].task] == io.pending[second[i].task];
    }
  }

  lemma SlotsTrans(a: seq<Task>, b: seq<Task>, c: seq<Task>, exited: map<nat, nat>, later: map<nat, nat>)
    requires SlotsFollow(a, b, exited) && SlotsFollow(b, c, later) && Grown(exited, later)
    ensures SlotsFollow(a, c, later)
  {
  }

  lemma KinTrans(a: map<nat, nat>, b: map<nat, nat>, c: map<nat, nat>, exited: map<nat, nat>, later: map<nat, nat>)
    requires KinFollow(a, b, exited) && KinFollow(b, c, later) && Grown(exited, later)
    ensures KinFollow(a, c, later)
  {
  }

  lemma SteadyTrans(a: World, io: FileState, b: World, mid: FileState, c: World, later: FileState)
    requires Steady(a, io, b, mid) && Steady(b, mid, c, later)
    ensures Steady(a, io, c, later)
  {
    forall t | 0 <= t < |c.tasks| && c.tasks[t].state == IoWaiting ensures SameRequest(io, later, t) {
      assert SameRequest(io, mid, t) && SameRequest(mid, later, t);
    }
  }

  lemma StayAwake(b: World, mid: FileState, c: World, later: FileState, first: seq<Event>, second: seq<Event>)
    requires AllAwake(b.tasks, first) && AllAwake(c.tasks, second) && Steady(b, mid, c, later)
    ensures AllAwake(c.tasks, first + second)
  {
  }

  lemma LeadsToTrans(a: World, io: FileState, b: World, mid: FileState, c: World, later: FileState)
    requires LeadsTo(a, io, b, mid) && LeadsTo(b, mid, c, later)
    ensures LeadsTo(a, io, c, later)
  {
    hide Asked, Drained, Steady, SlotsFollow, KinFollow, Grown;
    var first, second := b.trace[|a.trace|..], c.trace[|b.trace|..];
    assert c.trace[|a.trace|..] == first + second;
    forall i: nat | i < |first + second| ensures Asked(a, io, c.reaped, first + second, i) {
      if i < |first| {
        AskedEarlier(a, io, b.reaped, c.reaped, first, second, i);
      } else {
        AskedLater(a, io, b, mid, c.reaped, first, second, i - |first|);
      }
    }
    forall i | 0 <= i < |second| && second[i].Received?
      ensures io.OnPipe(second[i].task) && mid.OnPipe(second[i].task) && mid.PipeOf(second[i].task) == io.PipeOf(second[i].task)
    {
      AskedLater(a, io, b, mid, c.reaped, first, second, i);
    }
    DrainedCompose(io, mid, first, second);
    StayAwake(b, mid, c, later, first, second);
    SteadyTrans(a, io, b, mid, c, later);
    GrownTrans(a.exited, b.exited, c.exited);
    SlotsTrans(a.tasks, b.tasks, c.tasks, b.exited, c.exited);
    KinTrans(a.parents, b.parents, c.parents, b.exited, c.exited);
  }

  lemma GrownTrans(a: map<nat, nat>, b: map<nat, nat>, c: map<nat, nat>)
    requires Grown(a, b) && Grown(b, c)
    ensures Grown(a, c)
  {
  }

  // ------------------------------------------------------------ the steps

  /** Nothing happened but that some task changed between stopped and running. */
  lemma LeadsToQuiet(a: World, io: FileState, b: World)
    requires b.start == a.start && b.trace == a.trace && b.reaped == a.reaped && b.exited == a.exited && b.parents == a.parents
    requires |b.tasks| == |a.tasks|
    requires forall t :: 0 <= t < |a.tasks| ==>
      b.tasks[t] == a.tasks[t] || (a.tasks[t].Live() && b.tasks[t].state == Running && b.tasks[t].pid == a.tasks[t].pid)
    ensures LeadsTo(a, io, b, io)
  {
    assert b.trace[|a.trace|..] == [];
  }

  /** One delivery of wake_waiters. */
  lemma LeadsToDelivered(w: World, io: FileState, i: nat, j: nat)
    requires w.Deliverable(i, j) && i != j && w.tasks[i].state == Waiting && w.tasks[j].state == Zombie
    requires Matches(w.tasks[i], w.tasks[j], w.tasks[i].waitPid)
    ensures LeadsTo(w, io, w.Delivered(i, j), io)
  {
    hide Store32, Asked, Drained, KinFollow;
    var after := w.Delivered(i, j);
    var more := WaitEvents(i, w.tasks[i], w.tasks[j]);
    assert after.trace[|w.trace|..] == more;
    assert after.reaped[|w.reaped|] == Reaped(w.tasks[j].pid, w.tasks[i].pid, w.tasks[j].status);
    forall k: nat | k < |more| ensures Asked(w, io, after.reaped, more, k) {
      DeliveredAsked(w, io, after.reaped, i, j, k);
    }
    NoneDrained(io, more);
    KinSame(w.parents, w.exited);
  }

  lemma KinSame(parents: map<nat, nat>, exited: map<nat, nat>)
    ensures KinFollow(parents, parents, exited)
  {
  }

  lemma DeliveredAsked(w: World, io: FileState, reaped: seq<Reaped>, i: nat, j: nat, k: nat)
    requires i < |w.tasks| && j < |w.tasks| && w.tasks[j].pid < U32 && w.tasks[i].state == Waiting
    requires w.tasks[i].waitPid <= 0 || w.tasks[j].pid == w.tasks[i].waitPid
    requires reaped == w.reaped + [Reaped(w.tasks[j].pid, w.tasks[i].pid, w.tasks[j].status)]
    requires k < |WaitEvents(i, w.tasks[i], w.tasks[j])|
    ensures Asked(w, io, reaped, WaitEvents(i, w.tasks[i], w.tasks[j]), k)
  {
    assert reaped[|w.reaped|] == Reaped(w.tasks[j].pid, w.tasks[i].pid, w.tasks[j].status);
    assert Since(w.reaped, reaped, Reaped(w.tasks[j].pid, w.tasks[i].pid, w.tasks[j].status));
  }

  lemma {:induction false} NoneDrained(io: FileState, more: seq<Event>)
    requires forall i :: 0 <= i < |more| ==> !more[i].Received?
    ensures Drained(io, more) == io.delivered
  {
    if more != [] {
      NoneDrained(io, more[..|more| - 1]);
    }
  }

  /** The running task `c` dies, and its descriptors go. */
  lemma LeadsToDied(size: nat, w: World, io: FileState, c: nat, status: nat, later: FileState)
    requires w.Ok(size) && c < |w.tasks| && w.tasks[c].state == Running && status < 0x1_0000
    requires forall t :: 0 <= t < |w.tasks| && t != c ==> w.tasks[t].state != Running
    requires later.files == WithoutTask(io.files, c) && SameFiles(io.descriptions, later.descriptions) && |later.pipes| == |io.pipes|
    requires c < |io.pending| == |later.pending| && later.pending == io.pending[c := later.pending[c]]
    requires later.journal == io.journal && later.delivered == io.delivered
    ensures LeadsTo(w, io, w.Died(c, status), later)
  {
    hide Orphaned, Reparented, KinOk;
    var after := w.Died(c, status);
    assert after.trace[|w.trace|..] == [];
    DiedRoot(size, w, c, status);
    DiedKin(size, w, c, status);
    hide World.Ok;
    forall t | 0 <= t < |after.tasks| && after.tasks[t].state == IoWaiting ensures SameRequest(io, later, t) {
      assert t != c;
    }
  }

  lemma DiedKin(size: nat, w: World, c: nat, status: nat)
    requires w.Ok(size) && c < |w.tasks| && w.tasks[c].Live() && status < 0x1_0000
    ensures KinFollow(w.parents, w.Died(c, status).parents, w.Died(c, status).exited)
  {
    OkParts(size, w);
    hide World.Ok, KinFollow, Reparented, Killed;
    KinDied(w.tasks, w.nextPid, w.reaped, w.exited, w.parents, c, status);
  }

  // ------------------------------------------------------------ one move of a transfer

  /** Slot `c` attempted its pending transfer: the pipe did what linux_io_resume does with it,
      and `received` is what arrived in the memory of the task. */
  ghost predicate Stepped(size: nat, base: nat, io: FileState, later: FileState, c: nat, memory: seq<Byte>, after: seq<Byte>,
                          outcome: Outcome, received: seq<Event>)
  {
    && size > 0 && io.OnPipe(c) && |io.journal| == |io.delivered| == |io.pipes|
    && |later.pipes| == |later.journal| == |later.delivered| == |io.pipes| && |later.pending| == |io.pending|
    && var p := io.PipeOf(c);
    && later == io.(pipes := io.pipes[p := later.pipes[p]], pending := io.pending[c := later.pending[c]],
                    journal := io.journal[p := later.journal[p]], delivered := io.delivered[p := later.delivered[p]])
    && var a := io.SideOf(c, memory);
    && var b := Side(later.pending[c], later.pipes[p], after, later.journal[p], later.delivered[p]);
    && a.Ok(size, base) && Resumed(size, base, io.End(c).nonblock, a, b, outcome)
    && a.pipe.head < |a.pipe.data| && a.pipe.used <= |a.pipe.data|
    && received == ReceivedBytes(c, a, b)
  }

  /** What that means for those who watch: the request stays, histories grow, and a reader is
      given the next bytes the pipe delivered. */
  ghost predicate Moves(io: FileState, later: FileState, c: nat, outcome: Outcome, received: seq<Event>) {
    && io.OnPipe(c) && |later.pipes| == |io.pipes| && |io.journal| == |io.delivered| == |io.pipes|
    && |later.journal| == |later.delivered| == |io.pipes| && |later.pending| == |io.pending|
    && var p, q := io.PipeOf(c), io.pending[c];
    && later == io.(pipes := io.pipes[p := later.pipes[p]], pending := io.pending[c := later.pending[c]],
                    journal := io.journal[p := later.journal[p]], delivered := io.delivered[p := later.delivered[p]])
    && later.pending[c] == q.(active := later.pending[c].active, index := later.pending[c].index,
                              offset := later.pending[c].offset, total := later.pending[c].total)
    && (outcome.Wait? ==> later.pending[c].active && (!q.writing ==> later.pending[c] == q))
    && io.journal[p] <= later.journal[p]
    && (outcome.Done? ==> -EAGAIN <= outcome.value <= INT_MAX
                          && AnswerOk(q, io.End(c).nonblock, received != [], ToWord(outcome.value)))
    && if received == [] then later.delivered[p] == io.delivered[p]
       else
         && !q.writing && |received| == 1 && received[0].Received? && received[0].task == c
         && NextBytes(q, received[0].addresses) && |received[0].addresses| == |received[0].data| > 0
         && outcome.Done? && outcome.value == |received[0].data|
         && later.delivered[p] == io.delivered[p] + received[0].data
  }

  lemma SteppedMoves(size: nat, base: nat, io: FileState, later: FileState, c: nat, memory: seq<Byte>, after: seq<Byte>,
                     outcome: Outcome, received: seq<Event>)
    requires Stepped(size, base, io, later, c, memory, after, outcome, received)
    ensures Moves(io, later, c, outcome, received)
  {
    hide Stepped;
    SteppedSides(size, base, io, later, c, memory, after, outcome, received);
    var p := io.PipeOf(c);
    var a := io.SideOf(c, memory);
    var b := Side(later.pending[c], later.pipes[p], after, later.journal[p], later.delivered[p]);
    ResumedKeepsPending(size, base, io.End(c).nonblock, a, b, outcome);
    ResumedOutcome(size, base, io.End(c).nonblock, a, b, outcome);
    ResumedHistories(size, base, io.End(c).nonblock, a, b, outcome, c);
    ResumedAnswer(size, base, io.End(c).nonblock, a, b, outcome, c);
    hide Resumed, Side.Ok, ReceivedBytes, Addresses;
  }

  lemma SteppedSides(size: nat, base: nat, io: FileState, later: FileState, c: nat, memory: seq<Byte>, after: seq<Byte>,
                     outcome: Outcome, received: seq<Event>)
    requires Stepped(size, base, io, later, c, memory, after, outcome, received)
    ensures size > 0 && io.OnPipe(c) && |io.journal| == |io.delivered| == |io.pipes|
    ensures |later.pipes| == |later.journal| == |later.delivered| == |io.pipes| && |later.pending| == |io.pending|
    ensures var p := io.PipeOf(c);
      && later == io.(pipes := io.pipes[p := later.pipes[p]], pending := io.pending[c := later.pending[c]],
                      journal := io.journal[p := later.journal[p]], delivered := io.delivered[p := later.delivered[p]])
      && var a := io.SideOf(c, memory);
      && var b := Side(later.pending[c], later.pipes[p], after, later.journal[p], later.delivered[p]);
      && a.Ok(size, base) && Resumed(size, base, io.End(c).nonblock, a, b, outcome)
      && a.pipe.head < |a.pipe.data| && a.pipe.used <= |a.pipe.data|
      && received == ReceivedBytes(c, a, b)
  {
    hide Resumed, Side.Ok, ReceivedBytes;
  }

  /** Histories after one attempt. */
  lemma ResumedHistories(size: nat, base: nat, nonblock: bool, a: Side, b: Side, outcome: Outcome, c: nat)
    requires size > 0 && a.Ok(size, base) && Resumed(size, base, nonblock, a, b, outcome)
    requires a.pipe.head < |a.pipe.data| && a.pipe.used <= |a.pipe.data|
    ensures a.journal <= b.journal
    ensures var events := ReceivedBytes(c, a, b);
      if events == [] then b.delivered == a.delivered
      else
        && !a.io.writing && |events| == 1 && events[0].Received? && events[0].task == c
        && NextBytes(a.io, events[0].addresses) && |events[0].addresses| == |events[0].data| > 0
        && b.delivered == a.delivered + events[0].data && b.io.total == |events[0].data|
  {
    hide Joined, Atomic, VectorsInWindow, InWindow, Gather, Scatter, PipeIo.CursorOk, Addresses, Ring;
    TransferInWindow(size, base, a);
  }

  /** The result of one attempt, and that a reader who must wait did not move. */
  lemma ResumedAnswer(size: nat, base: nat, nonblock: bool, a: Side, b: Side, outcome: Outcome, c: nat)
    requires size > 0 && a.Ok(size, base) && Resumed(size, base, nonblock, a, b, outcome)
    requires a.pipe.head < |a.pipe.data| && a.pipe.used <= |a.pipe.data|
    ensures outcome.Wait? ==> b.io.active && (!a.io.writing ==> b.io == a.io)
    ensures outcome.Done? ==> -EAGAIN <= outcome.value <= INT_MAX
                              && AnswerOk(a.io, nonblock, ReceivedBytes(c, a, b) != [], ToWord(outcome.value))
    ensures ReceivedBytes(c, a, b) != [] ==> outcome == Done(b.io.total)
  {
    hide Joined, Atomic, VectorsInWindow, InWindow, Gather, Scatter, PipeIo.CursorOk, Addresses, Ring;
    TransferInWindow(size, base, a);
  }

  /** The scheduler's view of a resumption: `w` still shows the task as blocked. */
  lemma LeadsToResumed(w: World, io: FileState, b: World, later: FileState, c: nat, outcome: Outcome, received: seq<Event>)
    requires c < |w.tasks| && w.tasks[c].state == IoWaiting && Moves(io, later, c, outcome, received)
    requires b.start == w.start && b.reaped == w.reaped && b.exited == w.exited && b.parents == w.parents
    requires b.tasks == w.tasks[c := w.tasks[c].(state := if outcome.Wait? then IoWaiting else Running)]
    requires b.trace == w.trace + received + if outcome.Done? then [Result(c, ToWord(outcome.value))] else []
    requires !outcome.Done? ==> received == []
    ensures LeadsTo(w, io, b, later)
  {
    hide Asked, Drained, Moves, Accepted, SameRequest;
    MovesFit(io, later, c, outcome, received);
    var more := received + if outcome.Done? then [Result(c, ToWord(outcome.value))] else [];
    assert b.trace[|w.trace|..] == more;
    forall i: nat | i < |more| ensures Asked(w, io, b.reaped, more, i) {
      MovesAsked(w, io, later, c, outcome, received, i);
    }
    assert AllAwake(b.tasks, more) by { MovesNames(io, later, c, outcome, received); }
    MovesDrained(io, later, c, outcome, received);
    forall t | 0 <= t < |b.tasks| && b.tasks[t].state == IoWaiting ensures SameRequest(io, later, t) {
      MovesSame(io, later, c, outcome, received, t);
    }
  }

  lemma MovesFit(io: FileState, later: FileState, c: nat, outcome: Outcome, received: seq<Event>)
    requires Moves(io, later, c, outcome, received)
    ensures outcome.Done? ==> -0x8000_0000 <= outcome.value < U32
  {
  }

  lemma MovesNames(io: FileState, later: FileState, c: nat, outcome: Outcome, received: seq<Event>)
    requires Moves(io, later, c, outcome, received)
    ensures forall i :: 0 <= i < |received| ==> received[i].task == c
    ensures received != [] ==> outcome.Done?
  {
    hide NextBytes, AnswerOk;
  }

  lemma MovesAsked(w: World, io: FileState, later: FileState, c: nat, outcome: Outcome, received: seq<Event>, i: nat)
    requires c < |w.tasks| && w.tasks[c].state == IoWaiting && Moves(io, later, c, outcome, received)
    requires received == [] || outcome.Done?
    requires i < |received| + if outcome.Done? then 1 else 0
    ensures outcome.Done? ==> -0x8000_0000 <= outcome.value < U32
    ensures Asked(w, io, w.reaped, received + if outcome.Done? then [Result(c, ToWord(outcome.value))] else [], i)
  {
    hide Addresses, AnswerOk;
  }

  lemma MovesDrained(io: FileState, later: FileState, c: nat, outcome: Outcome, received: seq<Event>)
    requires Moves(io, later, c, outcome, received)
    ensures outcome.Done? ==> -0x8000_0000 <= outcome.value < U32
    ensures later.delivered == Drained(io, received + if outcome.Done? then [Result(c, ToWord(outcome.value))] else [])
    ensures Accepted(io, later)
  {
    hide NextBytes, AnswerOk;
    var rest := if outcome.Done? then [Result(c, ToWord(outcome.value))] else [];
    if received == [] {
      NoneDrained(io, received + rest);
    } else {
      var e := received[0];
      assert received + rest == [e] + rest && [e][..0] == [] && ([e] + rest)[..1] == [e];
      assert Drained(io, [e]) == Drain(io, Drained(io, []), e);
      assert Drained(io, [e] + rest) == Drain(io, Drained(io, [e]), rest[0]);
    }
  }

  lemma MovesSame(io: FileState, later: FileState, c: nat, outcome: Outcome, received: seq<Event>, t: nat)
    requires Moves(io, later, c, outcome, received) && (t == c ==> outcome.Wait?)
    ensures SameRequest(io, later, t)
  {
    hide NextBytes, AnswerOk;
  }

  // ------------------------------------------------------------ the first attempt of a call

  /** What the first attempt of a read or write came to: its outcome, the files, the caller's
      memory, and what arrived there. */
  datatype Attempt = Attempt(outcome: Outcome, io: FileState, arena: seq<Byte>, received: seq<Event>)

  /** read, write, readv or writev of task `c` on descriptor `fd`, seen by the files and by the
      caller's memory: a refusal changes neither, and an accepted request steps. */
  ghost predicate Attempted(size: nat, base: nat, io: FileState, c: nat, fd: nat, address: nat, count: nat,
                            writing: bool, vectored: bool, memory: seq<Byte>, attempt: Attempt)
  {
    && c < |io.pending| && Cell(c, fd) in io.files && io.files[Cell(c, fd)] < |io.descriptions|
    && var request := PipeRequest(io.descriptions[io.files[Cell(c, fd)]], memory, base, address, count, writing, vectored);
    if request.Refused? then
      && attempt.outcome == Done(request.error) && attempt.received == [] && attempt.arena == memory
      && |attempt.io.pending| == |io.pending| && !attempt.io.pending[c].active
      && attempt.io == io.(pending := io.pending[c := attempt.io.pending[c]])
    else
      Stepped(size, base, Asking(io, c, PipeIo(true, writing, fd, request.vectors, 0, 0, 0, TotalLength(request.vectors))),
              attempt.io, c, memory, attempt.arena, attempt.outcome, attempt.received)
  }

  function Asking(io: FileState, c: nat, request: PipeIo): FileState
    requires c < |io.pending|
  {
    io.(pending := io.pending[c := request])
  }

  /** A write leaves its caller's memory alone, and so does a call that sleeps or is killed. A
      read fills exactly the first addresses it named, with the bytes that left the pipe. */
  lemma AttemptedExactly(size: nat, base: nat, io: FileState, c: nat, fd: nat, address: nat, count: nat,
                         writing: bool, vectored: bool, memory: seq<Byte>, attempt: Attempt)
    requires Attempted(size, base, io, c, fd, address, count, writing, vectored, memory, attempt)
    ensures writing || !attempt.outcome.Done? ==> attempt.received == []
    ensures attempt.received == [] ==> attempt.arena == memory && attempt.io.delivered == io.delivered
    ensures attempt.received != [] ==>
      && |attempt.received| == 1 && attempt.received[0].Received? && attempt.received[0].task == c
      && var e := attempt.received[0];
      && |e.addresses| == |e.data| > 0 && attempt.outcome == Done(|e.data|)
      && var request := PipeRequest(io.descriptions[io.files[Cell(c, fd)]], memory, base, address, count, writing, vectored);
      && request.Transfer? && e.addresses <= Addresses(request.vectors)
      && InWindow(base, |memory|, e.addresses) && attempt.arena == Scatter(memory, base, e.addresses, e.data)
      && |attempt.io.delivered| == |io.delivered|
      && var kind := io.descriptions[io.files[Cell(c, fd)]].kind;
      && kind.PipeEnd? && kind.pipe < |io.delivered|
      && attempt.io.delivered == io.delivered[kind.pipe := io.delivered[kind.pipe] + e.data]
    ensures |attempt.io.journal| == |io.journal| && forall p :: 0 <= p < |io.journal| ==> io.journal[p] <= attempt.io.journal[p]
  {
    hide Stepped, PipeRequest, Addresses;
    var request := PipeRequest(io.descriptions[io.files[Cell(c, fd)]], memory, base, address, count, writing, vectored);
    if request.Transfer? {
      var asking := Asking(io, c, PipeIo(true, writing, fd, request.vectors, 0, 0, 0, TotalLength(request.vectors)));
      SteppedMoves(size, base, asking, attempt.io, c, memory, attempt.arena, attempt.outcome, attempt.received);
      SteppedArrives(size, base, asking, attempt.io, c, memory, attempt.arena, attempt.outcome, attempt.received);
    }
  }

  lemma SteppedArrives(size: nat, base: nat, io: FileState, later: FileState, c: nat, memory: seq<Byte>, after: seq<Byte>,
                       outcome: Outcome, received: seq<Event>)
    requires Stepped(size, base, io, later, c, memory, after, outcome, received)
    ensures if received == [] then after == memory
            else
              && received == [received[0]] && received[0].Received? && |received[0].addresses| == |received[0].data|
              && InWindow(base, |memory|, received[0].addresses)
              && after == Scatter(memory, base, received[0].addresses, received[0].data)
  {
    hide Stepped;
    SteppedSides(size, base, io, later, c, memory, after, outcome, received);
    var p := io.PipeOf(c);
    var b := Side(later.pending[c], later.pipes[p], after, later.journal[p], later.delivered[p]);
    ResumedCopies(size, base, io.End(c).nonblock, io.SideOf(c, memory), b, outcome, c);
    hide Resumed, Side.Ok, ReceivedBytes;
  }

  // ------------------------------------------------------------ isolation

  /** The bytes of its own memory a blocked task asked the kernel to fill. */
  ghost predicate AskedFor(w: World, io: FileState, t: nat, address: nat)
    requires t < |w.tasks|
  {
    || (w.tasks[t].state == Waiting && w.tasks[t].waitStatus != 0
        && w.tasks[t].waitStatus <= address < w.tasks[t].waitStatus + 4)
    || (w.tasks[t].state == IoWaiting && io.OnPipe(t) && !io.pending[t].writing && address in Addresses(io.pending[t].vectors))
  }

  /** Of what a task believes is its own, only those bytes and its result register may change. */
  ghost predicate OnlyThat(w: World, io: FileState, t: nat, m: Private, n: Private)
    requires t < |w.tasks|
  {
    && n.state == m.state && n.cwd == m.cwd && |n.memory| == |m.memory|
    && n.frame == m.frame.(eax := n.frame.eax)
    && forall i :: 0 <= i < |m.memory| && !AskedFor(w, io, t, m.state.base + i) ==> n.memory[i] == m.memory[i]
  }

  lemma {:induction false} ReplayAsked(w: World, io: FileState, reaped: seq<Reaped>, more: seq<Event>, start: seq<Private>,
                                       trace: seq<Event>, t: nat, n: nat)
    requires AllAsked(w, io, reaped, more) && t < |w.tasks| && t < |start| && n <= |more|
    ensures OnlyThat(w, io, t, Replay(start, trace)[t], Replay(start, trace + more[..n])[t])
  {
    hide Asked, AskedFor, Addresses, Replay, Apply;
    if n == 0 {
      assert trace + more[..0] == trace;
    } else {
      hide OnlyThat;
      ReplayAsked(w, io, reaped, more, start, trace, t, n - 1);
      var e, before := more[n - 1], Replay(start, trace + more[..n - 1]);
      assert trace + more[..n] == (trace + more[..n - 1]) + [e];
      ReplayStep(start, trace + more[..n - 1], e);
      assert Asked(w, io, reaped, more, n - 1);
      OneAsked(w, io, reaped, more, n - 1, before, t);
      OnlyThatTrans(w, io, t, Replay(start, trace)[t], before[t], Replay(start, trace + more[..n])[t]);
    }
  }

  lemma OnlyThatTrans(w: World, io: FileState, t: nat, m: Private, n: Private, o: Private)
    requires t < |w.tasks| && OnlyThat(w, io, t, m, n) && OnlyThat(w, io, t, n, o)
    ensures OnlyThat(w, io, t, m, o)
  {
    hide AskedFor;
  }

  lemma OneAsked(w: World, io: FileState, reaped: seq<Reaped>, more: seq<Event>, i: nat, machines: seq<Private>, t: nat)
    requires i < |more| && Asked(w, io, reaped, more, i) && t < |w.tasks| && t < |machines|
    ensures OnlyThat(w, io, t, machines[t], Apply(machines, more[i])[t])
  {
    hide Addresses;
    var e, m := more[i], machines[t];
    if e.task == t && e.Received? && |e.addresses| == |e.data| && InWindow(m.state.base, |m.memory|, e.addresses) {
      var q := io.pending[t];
      forall j | 0 <= j < |m.memory| && !AskedFor(w, io, t, m.state.base + j)
        ensures Scatter(m.memory, m.state.base, e.addresses, e.data)[j] == m.memory[j]
      {
        assert forall k :: 0 <= k < |e.addresses| ==> e.addresses[k] in Addresses(q.vectors);
        ScatterFrame(m.memory, m.state.base, e.addresses, e.data, j);
      }
    }
  }

  /** Isolation, of every task and over any stretch the scheduler handles on its own: memory,
      registers, break and directory of a live task are what they were, except for the bytes it
      asked to have filled by the call it is blocked in, and that call's result. */
  lemma OnlyAsked(size: nat, a: World, io: FileState, b: World, later: FileState, t: nat)
    requires a.Ok(size) && b.Ok(size) && LeadsTo(a, io, b, later) && t < |a.tasks| == |b.tasks|
    requires a.tasks[t].Live() && b.tasks[t].Live()
    ensures |a.tasks| == |a.snapshots| && |b.tasks| == |b.snapshots|
    ensures OnlyThat(a, io, t, View(a.tasks, a.snapshots, a.now, t), View(b.tasks, b.snapshots, b.now, t))
  {
    hide TreeOk, StatusesOk, KinOk, Replay, Asked, AskedFor, Drained, Steady, Accepted;
    var more := b.trace[|a.trace|..];
    assert b.trace == a.trace + more && more[..|more|] == more;
    ReplayAsked(a, io, b.reaped, more, a.start, a.trace, t, |more|);
  }

  /** A task that is still blocked, or was resumed and blocked again, has its machine untouched. */
  lemma StillAsleep(size: nat, a: World, io: FileState, b: World, later: FileState, t: nat)
    requires a.Ok(size) && b.Ok(size) && LeadsTo(a, io, b, later) && t < |b.tasks| && b.tasks[t].state in {Waiting, IoWaiting}
    ensures t < |a.tasks| == |a.snapshots| && |b.tasks| == |b.snapshots|
    ensures a.tasks[t].state == b.tasks[t].state
    ensures View(b.tasks, b.snapshots, b.now, t) == View(a.tasks, a.snapshots, a.now, t)
  {
    hide World.Ok, AllAsked, Drained, Accepted, SlotsFollow, KinFollow, Grown, SameRequest;
    forall i | |a.trace| <= i < |b.trace| ensures b.trace[i].task != t {
      assert b.trace[|a.trace|..][i - |a.trace|] == b.trace[i];
    }
    RunIsolation(size, a, b, t);
  }

  /** In particular the memory of a task that is runnable, or blocked in a write, stays as it is. */
  lemma NothingAsked(size: nat, a: World, io: FileState, b: World, later: FileState, t: nat)
    requires a.Ok(size) && b.Ok(size) && LeadsTo(a, io, b, later) && t < |a.tasks| == |b.tasks|
    requires a.tasks[t].Live() && b.tasks[t].Live()
    requires a.tasks[t].state == Runnable || a.tasks[t].state == Running
             || (a.tasks[t].state == IoWaiting && t < |io.pending| && io.pending[t].writing)
    ensures |a.tasks| == |a.snapshots| && |b.tasks| == |b.snapshots|
    ensures View(b.tasks, b.snapshots, b.now, t).memory == View(a.tasks, a.snapshots, a.now, t).memory
  {
    hide World.Ok, LeadsTo;
    OnlyAsked(size, a, io, b, later, t);
  }

  // ------------------------------------------------------------ waking

  /** `after` is `w` with the waiters below `n` served: they have what they are owed, the
      state is as consistent as before, and only blocked tasks' calls were finished. */
  ghost predicate Served(size: nat, w: World, io: FileState, after: World, n: nat) {
    && after.Ok(size) && WokenFrom(w.tasks, after.tasks) && LeadsTo(w, io, after, io)
    && after.nextPid == w.nextPid && after.now == w.now && after.exited == w.exited && after.parents == w.parents
    && n <= |after.tasks| && forall t :: 0 <= t < n ==> !Owed(after.tasks, t)
  }

  lemma {:induction false} WokenFacts(size: nat, w: World, io: FileState, n: nat)
    requires w.Ok(size) && n <= |w.tasks|
    ensures Served(size, w, io, w.Woken(n), n)
  {
    hide World.Ok, World.WokenAt, Owed, LeadsTo;
    if n > 0 {
      hide Served;
      WokenFacts(size, w, io, n - 1);
      ServedSize(size, w, io, w.Woken(n - 1), n - 1);
      WokenOne(size, w, io, w.Woken(n - 1), n - 1);
    } else {
      LeadsToQuiet(w, io, w);
    }
  }

  lemma ServedSize(size: nat, w: World, io: FileState, mid: World, i: nat)
    requires Served(size, w, io, mid, i)
    ensures |mid.tasks| == |w.tasks|
  {
    hide LeadsTo, World.Ok, Owed;
  }

  lemma WokenOne(size: nat, w: World, io: FileState, mid: World, i: nat)
    requires Served(size, w, io, mid, i) && i < |mid.tasks|
    ensures Served(size, w, io, mid.WokenAt(i), i + 1)
    ensures var j := DeadChild(mid.tasks, i, mid.tasks[i].waitPid, 0);
      mid.tasks[i].state == Waiting && j < |mid.tasks| ==> mid.Deliverable(i, j)
  {
    hide Served, World.Deliverable, Store32, LeadsTo;
    var j := DeadChild(mid.tasks, i, mid.tasks[i].waitPid, 0);
    if mid.tasks[i].state == Waiting && j < |mid.tasks| {
      ServedDelivered(size, w, io, mid, i, j);
    } else {
      ServedIdle(size, w, io, mid, i);
    }
  }

  lemma ServedDelivered(size: nat, w: World, io: FileState, mid: World, i: nat, j: nat)
    requires Served(size, w, io, mid, i) && i < |mid.tasks| && j < |mid.tasks|
    requires mid.tasks[i].state == Waiting && mid.tasks[j].state == Zombie && Matches(mid.tasks[i], mid.tasks[j], mid.tasks[i].waitPid)
    ensures mid.Deliverable(i, j) && Served(size, w, io, mid.Delivered(i, j), i + 1)
  {
    hide World.Ok, WokenFrom, Replay, Store32, Owed, LeadsTo, World.Deliverable;
    DeliveredOk(size, mid, i, j);
    LeadsToDelivered(mid, io, i, j);
    LeadsToTrans(w, io, mid, io, mid.Delivered(i, j), io);
    WokenMore(w, mid, i, j);
    NotWaiting(mid.Delivered(i, j).tasks, i);
  }

  lemma ServedIdle(size: nat, w: World, io: FileState, mid: World, i: nat)
    requires Served(size, w, io, mid, i) && i < |mid.tasks|
    requires mid.tasks[i].state != Waiting || DeadChild(mid.tasks, i, mid.tasks[i].waitPid, 0) == |mid.tasks|
    ensures Served(size, w, io, mid, i + 1)
  {
    hide World.Ok, WokenFrom, Owed, LeadsTo;
    NoDeadChild(mid.tasks, i);
  }

  lemma WokenMore(w: World, mid: World, i: nat, j: nat)
    requires WokenFrom(w.tasks, mid.tasks) && mid.Deliverable(i, j)
    requires mid.tasks[i].state == Waiting && mid.tasks[j].state == Zombie
    ensures var after := mid.Delivered(i, j);
      && WokenFrom(w.tasks, after.tasks)
      && |after.tasks| == |mid.tasks| && after.tasks[i].state == Runnable
      && forall t :: 0 <= t < |mid.tasks| && Owed(after.tasks, t) ==> Owed(mid.tasks, t)
  {
    hide WokenFrom, Store32, Owed;
    WokenStep(w.tasks, mid.tasks, mid.Delivered(i, j).tasks, i, j);
  }

  // ------------------------------------------------------------ whom the scheduler runs

  /** What the scheduler saw when it chose: the slot it started after, the tasks, the pipes. */
  datatype Round = Round(at: nat, w: World, io: FileState) {
    /** May this slot run now? */
    ghost predicate Runs(size: nat, t: nat) {
      t < |w.tasks| && (w.tasks[t].state == Runnable || (w.tasks[t].state == IoWaiting && io.CanGoOn(size, t)))
    }

    /** `slot` is the first one after the start, going round, that may run; the number of slots
        stands for none. */
    ghost predicate Chosen(size: nat, slot: nat) {
      if slot < |w.tasks| then
        && Runs(size, slot)
        && at < |w.tasks|
        && exists step :: 1 <= step <= |w.tasks| && slot == Wrap(|w.tasks|, at, step)
             && forall k :: 1 <= k < step ==> !Runs(size, Wrap(|w.tasks|, at, k))
      else slot == |w.tasks| && forall t :: 0 <= t < |w.tasks| ==> !Runs(size, t)
    }

    /** Nobody runs, and nobody is owed a status. */
    ghost predicate Quiet() {
      forall t :: 0 <= t < |w.tasks| ==> w.tasks[t].state != Running && !Owed(w.tasks, t)
    }
  }

  /** The rounds from the `n`th on: the first starts after `at`, each next one after the blocked
      task the one before it tried, the last chose `final`, and each follows from what was before
      without any other task having run. */
  ghost predicate RoundsOk(size: nat, before: World, io: FileState, rounds: seq<Round>, n: nat, at: nat, final: nat) {
    && n < |rounds| && rounds[n].at == at && LeadsTo(before, io, rounds[n].w, rounds[n].io)
    && rounds[|rounds| - 1].Chosen(size, final)
    && (forall k :: n <= k < |rounds| ==> rounds[k].Quiet())
    && forall k :: n <= k < |rounds| - 1 ==> Tried(size, rounds[k], rounds[k + 1])
  }

  /** The task chosen in round `r` was blocked; it could not finish its call, or died of it, and
      round `s` followed. */
  ghost predicate Tried(size: nat, r: Round, s: Round) {
    s.at < |r.w.tasks| && r.w.tasks[s.at].state == IoWaiting && r.Chosen(size, s.at) && LeadsTo(r.w, r.io, s.w, s.io)
  }

  lemma RoundsSince(size: nat, before: World, io: FileState, mid: World, between: FileState, rounds: seq<Round>, n: nat, at: nat, final: nat)
    requires RoundsOk(size, mid, between, rounds, n, at, final) && LeadsTo(before, io, mid, between)
    ensures RoundsOk(size, before, io, rounds, n, at, final)
  {
    hide Tried, Round.Chosen, Round.Quiet, LeadsTo;
    LeadsToTrans(before, io, mid, between, rounds[n].w, rounds[n].io);
  }

  /** One round before the others. */
  lemma RoundsMore(size: nat, mid: World, between: FileState, rounds: seq<Round>, n: nat, final: nat, slot: nat)
    requires n + 1 < |rounds| && RoundsOk(size, mid, between, rounds, n + 1, slot, final)
    requires LeadsTo(rounds[n].w, rounds[n].io, mid, between) && rounds[n].Quiet()
    requires slot < |rounds[n].w.tasks| && rounds[n].w.tasks[slot].state == IoWaiting && rounds[n].Chosen(size, slot)
    ensures RoundsOk(size, rounds[n].w, rounds[n].io, rounds, n, rounds[n].at, final)
  {
    hide Round.Chosen, Round.Quiet, LeadsTo;
    LeadsToTrans(rounds[n].w, rounds[n].io, mid, between, rounds[n + 1].w, rounds[n + 1].io);
    LeadsToItself(rounds[n].w, rounds[n].io);
  }

  lemma LeadsToItself(w: World, io: FileState)
    ensures LeadsTo(w, io, w, io)
  {
    LeadsToQuiet(w, io, w);
  }
}
