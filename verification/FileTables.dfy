/** The static tables of linux_syscall.c as values: descriptor cells, reference-counted
    open files, pipes and pending transfers, with the invariants that tie them together. */
module FileTables {
  import opened Bytes
  import opened PipeBytes

  const EBADF := 9
  const EAGAIN := 11
  const EFAULT := 14
  const EINVAL := 22
  const ENFILE := 23
  const EMFILE := 24
  const IOV_MAX := 1024
  const INT_MAX := 0x7fff_ffff

  /** One entry of `task_files`; a cell absent from the map is a null pointer. */
  datatype Cell = Cell(task: nat, fd: nat)

  datatype Access = ReadOnly | WriteOnly | ReadWrite

  datatype FileKind = Terminal | Regular | Directory | PipeEnd(pipe: nat)

  datatype OpenFile = OpenFile(refs: nat, access: Access, append: bool, nonblock: bool, kind: FileKind) {
    predicate Writes() {
      access != ReadOnly
    }
  }

  datatype Pipe = Pipe(readers: nat, writers: nat, head: nat, used: nat, data: seq<Byte>) {
    predicate Idle() {
      readers == 0 && writers == 0
    }

    ghost predicate Ok(size: nat) {
      |data| == size && head < size && used <= size
    }

    function Contents(): seq<Byte>
      requires head < |data| && used <= |data|
    {
      Ring(data, head, used)
    }
  }

  /** A transfer in progress: the cursor is vector `index`, byte `offset` in it. */
  datatype PipeIo = PipeIo(active: bool, writing: bool, fd: nat, vectors: seq<IoVector>,
                           index: nat, offset: nat, total: nat, length: nat)
  {
    ghost predicate CursorOk() {
      && length == TotalLength(vectors)
      && index <= |vectors|
      && offset <= (if index < |vectors| then vectors[index].length else 0)
      && total == TotalLength(vectors[..index]) + offset
    }
  }

  /** What `linux_io_resume` reports: two internal outcomes or a system-call result. */
  datatype Outcome = Wait | SigPipe | Done(value: int)

  /** One entry of a pipe's history: `data` was accepted from a write of `length`
      bytes, starting at its byte `from`. */
  datatype Chunk = Chunk(length: nat, from: nat, data: seq<Byte>)

  ghost function Joined(chunks: seq<Chunk>): seq<Byte> {
    if chunks == [] then [] else Joined(chunks[..|chunks| - 1]) + chunks[|chunks| - 1].data
  }

  /** A chunk of a write that fits in a pipe is the whole write. */
  ghost predicate Atomic(size: nat, chunks: seq<Chunk>) {
    forall i :: 0 <= i < |chunks| && chunks[i].length <= size ==>
      chunks[i].from == 0 && |chunks[i].data| == chunks[i].length
  }

  // ------------------------------------------------------------ reference counts

  ghost function Holders(files: map<Cell, nat>, d: nat): set<Cell> {
    set c | c in files && files[c] == d
  }

  ghost predicate RefsExact(files: map<Cell, nat>, descriptions: seq<OpenFile>) {
    forall d :: 0 <= d < |descriptions| ==> descriptions[d].refs == |Holders(files, d)|
  }

  ghost predicate IsEnd(f: OpenFile, p: nat, writer: bool) {
    f.refs > 0 && f.kind == PipeEnd(p) && f.Writes() == writer
  }

  ghost function Ends(descriptions: seq<OpenFile>, p: nat, writer: bool): set<nat> {
    set d: nat | d < |descriptions| && IsEnd(descriptions[d], p, writer)
  }

  ghost predicate EndsExact(descriptions: seq<OpenFile>, pipes: seq<Pipe>) {
    forall p :: 0 <= p < |pipes| ==>
      && pipes[p].readers == |Ends(descriptions, p, false)|
      && pipes[p].writers == |Ends(descriptions, p, true)|
  }

  ghost predicate CellsOk(tasks: nat, fds: nat, files: map<Cell, nat>, descriptions: seq<OpenFile>) {
    forall c :: c in files ==> c.task < tasks && c.fd < fds && files[c] < |descriptions|
  }

  ghost predicate KindsOk(descriptions: seq<OpenFile>, pipes: seq<Pipe>) {
    forall d :: 0 <= d < |descriptions| && descriptions[d].kind.PipeEnd? ==>
      descriptions[d].kind.pipe < |pipes| && descriptions[d].access != ReadWrite
  }

  lemma AddHolder(files: map<Cell, nat>, descriptions: seq<OpenFile>, c: Cell, d: nat, f: OpenFile)
    requires RefsExact(files, descriptions) && c !in files && d < |descriptions| && f.refs == descriptions[d].refs + 1
    ensures RefsExact(files[c := d], descriptions[d := f])
  {
    forall e | 0 <= e < |descriptions|
      ensures |Holders(files[c := d], e)| == if e == d then |Holders(files, e)| + 1 else |Holders(files, e)|
    {
      HolderAdded(files, c, d, e);
    }
  }

  lemma HolderAdded(files: map<Cell, nat>, c: Cell, d: nat, e: nat)
    requires c !in files
    ensures Holders(files[c := d], e) == if e == d then Holders(files, e) + {c} else Holders(files, e)
    ensures c !in Holders(files, e)
  {
  }

  lemma DropHolder(files: map<Cell, nat>, descriptions: seq<OpenFile>, c: Cell)
    requires RefsExact(files, descriptions) && c in files && files[c] < |descriptions|
    ensures descriptions[files[c]].refs > 0
    ensures RefsExact(files - {c},
      descriptions[files[c] := descriptions[files[c]].(refs := descriptions[files[c]].refs - 1)])
  {
    var d := files[c];
    assert c in Holders(files, d);
    forall e | 0 <= e < |descriptions|
      ensures Holders(files - {c}, e) == if e == d then Holders(files, e) - {c} else Holders(files, e)
    {
    }
  }

  /** Changing a count without making it zero or one-from-zero leaves the ends alone. */
  lemma SameEnds(descriptions: seq<OpenFile>, pipes: seq<Pipe>, d: nat, f: OpenFile)
    requires EndsExact(descriptions, pipes) && d < |descriptions|
    requires forall p, w :: IsEnd(descriptions[d], p, w) <==> IsEnd(f, p, w)
    ensures EndsExact(descriptions[d := f], pipes)
  {
    forall p: nat, w: bool ensures Ends(descriptions[d := f], p, w) == Ends(descriptions, p, w) {
    }
  }

  /** The last reference to an end goes away. */
  lemma LoseEnd(descriptions: seq<OpenFile>, pipes: seq<Pipe>, d: nat)
    requires EndsExact(descriptions, pipes) && KindsOk(descriptions, pipes) && d < |descriptions|
    requires descriptions[d].refs == 1 && descriptions[d].kind.PipeEnd?
    ensures var f := descriptions[d]; var p := f.kind.pipe; var q := pipes[p];
      && (if f.Writes() then q.writers > 0 else q.readers > 0)
      && EndsExact(descriptions[d := f.(refs := 0)],
           pipes[p := if f.Writes() then q.(writers := q.writers - 1) else q.(readers := q.readers - 1)])
  {
    var f := descriptions[d];
    var after := descriptions[d := f.(refs := 0)];
    assert d in Ends(descriptions, f.kind.pipe, f.Writes());
    forall p: nat, w: bool
      ensures Ends(after, p, w) == if p == f.kind.pipe && w == f.Writes() then Ends(descriptions, p, w) - {d}
                                   else Ends(descriptions, p, w)
    {
    }
  }

  /** A dead description becomes a live end of a pipe. */
  lemma GainEnd(descriptions: seq<OpenFile>, d: nat, f: OpenFile)
    requires d < |descriptions| && descriptions[d].refs == 0 && f.refs > 0 && f.kind.PipeEnd?
    ensures forall p, w :: Ends(descriptions[d := f], p, w) ==
              (if p == f.kind.pipe && w == f.Writes() then Ends(descriptions, p, w) + {d} else Ends(descriptions, p, w))
  {
    forall p: nat, w: bool
      ensures Ends(descriptions[d := f], p, w) ==
              if p == f.kind.pipe && w == f.Writes() then Ends(descriptions, p, w) + {d} else Ends(descriptions, p, w)
    {
    }
  }

  ghost predicate TablesOk(tasks: nat, fds: nat, files: map<Cell, nat>, descriptions: seq<OpenFile>, pipes: seq<Pipe>) {
    && CellsOk(tasks, fds, files, descriptions)
    && RefsExact(files, descriptions)
    && KindsOk(descriptions, pipes)
    && EndsExact(descriptions, pipes)
  }

  /** The tables of linux_syscall_reset: three terminals, held by the first task. */
  lemma FreshTables(tasks: nat, fds: nat, files: map<Cell, nat>, descriptions: seq<OpenFile>, pipes: seq<Pipe>)
    requires tasks >= 1 && fds >= 3 && |descriptions| >= 3
    requires files == map[Cell(0, 0) := 0, Cell(0, 1) := 1, Cell(0, 2) := 2]
    requires forall d :: 0 <= d < |descriptions| ==>
      descriptions[d].refs == (if d < 3 then 1 else 0) && !descriptions[d].kind.PipeEnd?
    requires forall p :: 0 <= p < |pipes| ==> pipes[p].readers == 0 && pipes[p].writers == 0
    ensures TablesOk(tasks, fds, files, descriptions, pipes)
  {
    forall d | 0 <= d < |descriptions|
      ensures Holders(files, d) == if d < 3 then {Cell(0, d)} else {}
    {
    }
    forall p: nat, w: bool ensures Ends(descriptions, p, w) == {} {
    }
  }

  /** Two tables that differ at most in reference counts. */
  ghost predicate SameFiles(a: seq<OpenFile>, b: seq<OpenFile>) {
    |a| == |b| && forall d :: 0 <= d < |a| ==> b[d] == a[d].(refs := b[d].refs)
  }

  /** Two pipe tables that differ at most in the number of ends. */
  ghost predicate SamePipes(a: seq<Pipe>, b: seq<Pipe>) {
    |a| == |b| && forall p :: 0 <= p < |a| ==> b[p] == a[p].(readers := b[p].readers, writers := b[p].writers)
  }

  /** The pipe table after one end of the kind of `f` went away. */
  function EndLost(f: OpenFile, pipes: seq<Pipe>): (r: seq<Pipe>)
    requires f.kind.PipeEnd? && f.kind.pipe < |pipes|
    requires var q := pipes[f.kind.pipe]; if f.Writes() then q.writers > 0 else q.readers > 0
  {
    var q := pipes[f.kind.pipe];
    pipes[f.kind.pipe := if f.Writes() then q.(writers := q.writers - 1) else q.(readers := q.readers - 1)]
  }

  lemma CloseKeeps(tasks: nat, fds: nat, files: map<Cell, nat>, descriptions: seq<OpenFile>, pipes: seq<Pipe>, c: Cell)
    requires TablesOk(tasks, fds, files, descriptions, pipes) && c in files
    ensures var f := descriptions[files[c]];
      && f.refs > 0
      && var lower := descriptions[files[c] := f.(refs := f.refs - 1)];
      && if f.refs == 1 && f.kind.PipeEnd? then
           var q := pipes[f.kind.pipe];
           && (if f.Writes() then q.writers > 0 else q.readers > 0)
           && TablesOk(tasks, fds, files - {c}, lower, EndLost(f, pipes))
         else TablesOk(tasks, fds, files - {c}, lower, pipes)
  {
    DropHolder(files, descriptions, c);
    var f := descriptions[files[c]];
    if f.refs == 1 && f.kind.PipeEnd? {
      LoseEnd(descriptions, pipes, files[c]);
    } else {
      SameEnds(descriptions, pipes, files[c], f.(refs := f.refs - 1));
    }
  }

  /** Does an active transfer of `task` still name a pipe end of the right kind, with
      an honest cursor? Reads and small writes never stop half-way. */
  ghost predicate PendingOk(io: PipeIo, task: nat, files: map<Cell, nat>, descriptions: seq<OpenFile>, size: nat) {
    io.active ==>
      && Cell(task, io.fd) in files && files[Cell(task, io.fd)] < |descriptions|
      && descriptions[files[Cell(task, io.fd)]].kind.PipeEnd?
      && descriptions[files[Cell(task, io.fd)]].Writes() == io.writing
      && io.CursorOk()
      && io.total < io.length <= INT_MAX
      && (!io.writing || io.length <= size ==> io.total == 0)
  }

  ghost predicate AllPendingOk(pending: seq<PipeIo>, files: map<Cell, nat>, descriptions: seq<OpenFile>, size: nat) {
    forall t :: 0 <= t < |pending| ==> PendingOk(pending[t], t, files, descriptions, size)
  }

  ghost predicate PipesOk(size: nat, pipes: seq<Pipe>) {
    forall p :: 0 <= p < |pipes| ==> pipes[p].Ok(size)
  }

  /** Bytes accepted are bytes delivered followed by the ring, and writes of at most
      a pipe's capacity entered whole. */
  ghost predicate HistoriesOk(size: nat, pipes: seq<Pipe>, journal: seq<seq<Chunk>>, delivered: seq<seq<Byte>>)
    requires PipesOk(size, pipes)
  {
    && |journal| == |pipes| && |delivered| == |pipes|
    && (forall p :: 0 <= p < |pipes| ==> Joined(journal[p]) == delivered[p] + pipes[p].Contents())
    && (forall p :: 0 <= p < |pipes| ==> Atomic(size, journal[p]))
  }

  /** Closing a cell whose task has nothing pending disturbs no pending transfer. */
  lemma PendingUntouched(pending: seq<PipeIo>, files: map<Cell, nat>, descriptions: seq<OpenFile>, size: nat,
                         files': map<Cell, nat>, descriptions': seq<OpenFile>)
    requires AllPendingOk(pending, files, descriptions, size)
    requires SameFiles(descriptions, descriptions')
    requires forall t, fd | 0 <= t < |pending| && pending[t].active && Cell(t, fd) in files ::
      Cell(t, fd) in files' && files'[Cell(t, fd)] == files[Cell(t, fd)]
    ensures AllPendingOk(pending, files', descriptions', size)
  {
  }

  lemma HistoriesUntouched(size: nat, pipes: seq<Pipe>, journal: seq<seq<Chunk>>, delivered: seq<seq<Byte>>, pipes': seq<Pipe>)
    requires PipesOk(size, pipes) && HistoriesOk(size, pipes, journal, delivered)
    requires SamePipes(pipes, pipes')
    ensures PipesOk(size, pipes') && HistoriesOk(size, pipes', journal, delivered)
  {
    forall p | 0 <= p < |pipes| ensures pipes'[p].Ok(size) {
    }
  }

  /** One more cell for a description that is alive already. */
  lemma ShareKeeps(tasks: nat, fds: nat, files: map<Cell, nat>, descriptions: seq<OpenFile>, pipes: seq<Pipe>, c: Cell, d: nat)
    requires TablesOk(tasks, fds, files, descriptions, pipes)
    requires c !in files && c.task < tasks && c.fd < fds && d < |descriptions| && descriptions[d].refs > 0
    ensures TablesOk(tasks, fds, files[c := d], descriptions[d := descriptions[d].(refs := descriptions[d].refs + 1)], pipes)
  {
    AddHolder(files, descriptions, c, d, descriptions[d].(refs := descriptions[d].refs + 1));
    SameEnds(descriptions, pipes, d, descriptions[d].(refs := descriptions[d].refs + 1));
  }

  // ------------------------------------------------------------ one transfer step

  /** Everything one `linux_io_resume` may change. */
  datatype Side = Side(io: PipeIo, pipe: Pipe, memory: seq<Byte>, journal: seq<Chunk>, delivered: seq<Byte>) {
    ghost predicate Ok(size: nat, base: nat) {
      && pipe.Ok(size)
      && io.CursorOk()
      && io.active && io.total < io.length <= INT_MAX
      && (!io.writing || io.length <= size ==> io.total == 0)
      && VectorsInWindow(base, |memory|, io.vectors)
      && Joined(journal) == delivered + pipe.Contents()
      && Atomic(size, journal)
    }

    function Stopped(): Side {
      this.(io := io.(active := false))
    }

    predicate Starved(size: nat)
      requires pipe.used <= size
    {
      if io.writing then
        size - pipe.used == 0 || (io.length <= size && size - pipe.used < io.length)
      else pipe.used == 0
    }

    /** How many bytes move when the step is neither refused nor starved. */
    function Quantum(size: nat): (n: nat)
      requires pipe.used <= size && io.total <= io.length
    {
      var available := if io.writing then size - pipe.used else pipe.used;
      if available > io.length - io.total then io.length - io.total else available
    }
  }

  /** The next `n` bytes of a transfer crossed the pipe, and nothing else happened. */
  ghost predicate Moved(base: nat, a: Side, b: Side, n: nat)
    requires a.pipe.head < |a.pipe.data| && a.pipe.used <= |a.pipe.data|
    requires a.io.total + n <= |Addresses(a.io.vectors)|
    requires InWindow(base, |a.memory|, Addresses(a.io.vectors))
  {
    var due := Addresses(a.io.vectors)[a.io.total..a.io.total + n];
    && b.pipe.Ok(|a.pipe.data|)
    && b.pipe.readers == a.pipe.readers && b.pipe.writers == a.pipe.writers
    && b.io.total == a.io.total + n
    && b.io == a.io.(index := b.io.index, offset := b.io.offset, total := b.io.total)
    && if a.io.writing then
         && b.memory == a.memory
         && b.pipe.Contents() == a.pipe.Contents() + Gather(a.memory, base, due)
       else
         && n <= a.pipe.used
         && b.memory == Scatter(a.memory, base, due, a.pipe.Contents()[..n])
         && b.pipe.Contents() == a.pipe.Contents()[n..]
  }

  /** The cursor after `chunk` more bytes of the current vector. */
  function Advance(io: PipeIo, chunk: nat): PipeIo {
    io.(offset := io.offset + chunk, total := io.total + chunk)
  }

  /** What every step of the copy loop may rely on. */
  ghost predicate InFlight(size: nat, base: nat, b: Side) {
    && b.pipe.Ok(size) && b.io.CursorOk()
    && b.io.total <= b.io.length == |Addresses(b.io.vectors)|
    && VectorsInWindow(base, |b.memory|, b.io.vectors)
    && InWindow(base, |b.memory|, Addresses(b.io.vectors))
  }

  lemma {:induction false} GatherCompose(mem: seq<Byte>, base: nat, all: seq<nat>, t: nat, m: nat, n: nat)
    requires InWindow(base, |mem|, all) && t + m + n <= |all|
    ensures Gather(mem, base, all[t..t + m + n]) == Gather(mem, base, all[t..t + m]) + Gather(mem, base, all[t + m..t + m + n])
  {
  }

  lemma {:induction false} ScatterSlices(mem: seq<Byte>, base: nat, all: seq<nat>, t: nat, m: nat, n: nat, got: seq<Byte>)
    requires InWindow(base, |mem|, all) && t + m + n <= |all| && m + n <= |got|
    ensures Scatter(mem, base, all[t..t + m + n], got[..m + n])
         == Scatter(Scatter(mem, base, all[t..t + m], got[..m]), base, all[t + m..t + m + n], got[m..][..n])
  {
    assert all[t..t + m + n] == all[t..t + m] + all[t + m..t + m + n];
    assert got[..m + n] == got[..m] + got[m..][..n];
    ScatterCompose(mem, base, all[t..t + m], got[..m], all[t + m..t + m + n], got[m..][..n]);
  }

  lemma {:induction false} MovedCompose(size: nat, base: nat, a: Side, b: Side, c: Side, m: nat, n: nat)
    requires InFlight(size, base, a) && InFlight(size, base, b) && a.io.total + m + n <= a.io.length
    requires |b.memory| == |a.memory|
    requires Moved(base, a, b, m)
    requires Moved(base, b, c, n)
    ensures Moved(base, a, c, m + n)
  {
    hide VectorsInWindow, PipeIo.CursorOk, Addresses, TotalLength, Scatter, Gather;
    var all, t := Addresses(a.io.vectors), a.io.total;
    if a.io.writing {
      GatherCompose(a.memory, base, all, t, m, n);
      assert all[b.io.total..b.io.total + n] == all[t + m..t + m + n];
      assert c.pipe.Contents() == a.pipe.Contents() + Gather(a.memory, base, all[t..t + (m + n)]);
    } else {
      ScatterSlices(a.memory, base, all, t, m, n, a.pipe.Contents());
      assert all[b.io.total..b.io.total + n] == all[t + m..t + m + n];
      assert c.memory == Scatter(a.memory, base, all[t..t + (m + n)], a.pipe.Contents()[..m + n]);
    }
  }

  lemma {:induction false} NextRun(io: PipeIo, chunk: nat)
    requires io.CursorOk() && io.index < |io.vectors| && io.offset + chunk <= io.vectors[io.index].length
    ensures io.total + chunk <= |Addresses(io.vectors)|
    ensures Advance(io, chunk).CursorOk()
    ensures Addresses(io.vectors)[io.total..io.total + chunk]
         == Run(IoVector(io.vectors[io.index].address + io.offset, chunk))
  {
    AddressesAtCursor(io.vectors, io.index, io.offset, chunk);
  }

  /** One `memcpy` from user memory into the ring. */
  lemma {:induction false} ChunkWritten(size: nat, base: nat, b: Side, chunk: nat)
    requires InFlight(size, base, b) && b.io.writing
    requires b.io.index < |b.io.vectors| && 0 < chunk <= b.io.vectors[b.io.index].length - b.io.offset
    requires b.pipe.used + chunk <= size && Wrap(size, b.pipe.head, b.pipe.used) + chunk <= size
    ensures var position := Wrap(size, b.pipe.head, b.pipe.used);
      var user := b.io.vectors[b.io.index].address + b.io.offset - base;
      && 0 <= user && user + chunk <= |b.memory|
      && Advance(b.io, chunk).CursorOk()
      && b.io.total + chunk <= b.io.length
      && Moved(base, b, b.(io := Advance(b.io, chunk), pipe := b.pipe.(
           data := Splice(b.pipe.data, position, b.memory[user..user + chunk]), used := b.pipe.used + chunk)), chunk)
  {
    hide PipeIo.CursorOk, Addresses, TotalLength, Scatter;
    NextRun(b.io, chunk);
    var user := b.io.vectors[b.io.index].address + b.io.offset - base;
    var bytes := b.memory[user..user + chunk];
    RingAppend(b.pipe.data, b.pipe.head, b.pipe.used, bytes);
    assert Gather(b.memory, base, Run(IoVector(base + user, chunk))) == bytes;
  }

  /** One `memcpy` from the ring into user memory. */
  lemma {:induction false} ChunkRead(size: nat, base: nat, b: Side, chunk: nat)
    requires InFlight(size, base, b) && !b.io.writing
    requires b.io.index < |b.io.vectors| && 0 < chunk <= b.io.vectors[b.io.index].length - b.io.offset
    requires chunk <= b.pipe.used && b.pipe.head + chunk <= size
    ensures var user := b.io.vectors[b.io.index].address + b.io.offset - base;
      && 0 <= user && user + chunk <= |b.memory|
      && Advance(b.io, chunk).CursorOk()
      && b.io.total + chunk <= b.io.length
      && Moved(base, b, b.(io := Advance(b.io, chunk),
           memory := Splice(b.memory, user, b.pipe.data[b.pipe.head..b.pipe.head + chunk]),
           pipe := b.pipe.(used := b.pipe.used - chunk, head := (b.pipe.head + chunk) % size)), chunk)
  {
    hide PipeIo.CursorOk, Addresses, TotalLength, Gather;
    NextRun(b.io, chunk);
    var user := b.io.vectors[b.io.index].address + b.io.offset - base;
    RingTake(b.pipe.data, b.pipe.head, b.pipe.used, chunk);
    ScatterChunk(b.memory, base, base + user, b.pipe.data[b.pipe.head..b.pipe.head + chunk]);
  }

  lemma MovedNothing(size: nat, base: nat, a: Side)
    requires a.pipe.Ok(size) && a.io.CursorOk() && a.io.total <= a.io.length
    requires VectorsInWindow(base, |a.memory|, a.io.vectors)
    ensures InFlight(size, base, a)
    ensures Moved(base, a, a, 0)
  {
    AddressesCount(a.io.vectors);
    VectorsGiveAddresses(base, |a.memory|, a.io.vectors);
    assert Addresses(a.io.vectors)[a.io.total..a.io.total] == [];
  }

  /** Stepping over the end of a vector moves no bytes. */
  lemma MovedCursor(base: nat, a: Side, b: Side, n: nat, io: PipeIo)
    requires a.pipe.head < |a.pipe.data| && a.pipe.used <= |a.pipe.data|
    requires a.io.total + n <= |Addresses(a.io.vectors)|
    requires InWindow(base, |a.memory|, Addresses(a.io.vectors))
    requires Moved(base, a, b, n) && io == b.io.(index := io.index, offset := io.offset)
    ensures Moved(base, a, b.(io := io), n)
  {
  }

  /** With bytes still to move, the cursor is inside some vector. */
  lemma CursorHasVector(io: PipeIo)
    requires io.CursorOk() && io.total < io.length
    ensures io.index < |io.vectors| && io.offset <= io.vectors[io.index].length
    ensures io.offset == io.vectors[io.index].length ==> io.(index := io.index + 1, offset := 0).CursorOk()
  {
    assert io.vectors[..|io.vectors|] == io.vectors;
    TotalLengthPrefix(io.vectors, io.index);
  }

  /** The whole effect of `linux_io_resume`. */
  ghost predicate Resumed(size: nat, base: nat, nonblock: bool, a: Side, b: Side, outcome: Outcome)
    requires a.Ok(size, base)
  {
    if a.io.writing && a.pipe.readers == 0 then
      outcome == SigPipe && b == a.Stopped()
    else if !a.io.writing && a.pipe.used == 0 && a.pipe.writers == 0 then
      outcome == Done(0) && b == a.Stopped()
    else if a.Starved(size) then
      if nonblock then
        outcome == Done(if a.io.total > 0 then a.io.total else -EAGAIN) && b == a.Stopped()
      else
        outcome == Wait && b == a
    else
      TransferInWindow(size, base, a);
      var n := a.Quantum(size);
      var more := a.io.writing && a.io.total + n < a.io.length && !nonblock;
      && n > 0
      && outcome == (if more then Wait else Done(a.io.total + n))
      && b.io.active == more
      && Moved(base, a, b.(io := b.io.(active := true)), n)
      && Recorded(base, a, b, n)
  }

  /** The histories gained exactly the bytes that moved. */
  ghost predicate Recorded(base: nat, a: Side, b: Side, n: nat)
    requires a.pipe.head < |a.pipe.data| && a.pipe.used <= |a.pipe.data|
    requires a.io.total + n <= |Addresses(a.io.vectors)|
    requires InWindow(base, |a.memory|, Addresses(a.io.vectors))
  {
    if a.io.writing then
      var due := Addresses(a.io.vectors)[a.io.total..a.io.total + n];
      && b.journal == a.journal + [Chunk(a.io.length, a.io.total, Gather(a.memory, base, due))]
      && b.delivered == a.delivered
    else
      && n <= a.pipe.used
      && b.journal == a.journal
      && b.delivered == a.delivered + a.pipe.Contents()[..n]
  }

  /** The histories after `n` more bytes. */
  ghost method Record(base: nat, a: Side, n: nat) returns (journal: seq<Chunk>, delivered: seq<Byte>)
    requires a.pipe.head < |a.pipe.data| && a.pipe.used <= |a.pipe.data|
    requires a.io.total + n <= |Addresses(a.io.vectors)|
    requires InWindow(base, |a.memory|, Addresses(a.io.vectors))
    requires !a.io.writing ==> n <= a.pipe.used
    ensures Recorded(base, a, a.(journal := journal, delivered := delivered), n)
  {
    journal, delivered := a.journal, a.delivered;
    if a.io.writing {
      var due := Addresses(a.io.vectors)[a.io.total..a.io.total + n];
      journal := journal + [Chunk(a.io.length, a.io.total, Gather(a.memory, base, due))];
    } else {
      delivered := delivered + a.pipe.Contents()[..n];
    }
  }

  /** `Moved` does not look at the histories. */
  lemma MovedFacts(base: nat, a: Side, a': Side, b: Side, b': Side, n: nat)
    requires a.pipe.head < |a.pipe.data| && a.pipe.used <= |a.pipe.data|
    requires a.io.total + n <= |Addresses(a.io.vectors)|
    requires InWindow(base, |a.memory|, Addresses(a.io.vectors))
    requires Moved(base, a, b, n)
    requires a' == a.(journal := a'.journal, delivered := a'.delivered)
    requires b' == b.(journal := b'.journal, delivered := b'.delivered)
    ensures b.io == a.io.(index := b.io.index, offset := b.io.offset, total := a.io.total + n)
    ensures Moved(base, a', b', n)
  {
  }

  lemma TransferInWindow(size: nat, base: nat, a: Side)
    requires a.Ok(size, base)
    ensures |Addresses(a.io.vectors)| == a.io.length
    ensures InWindow(base, |a.memory|, Addresses(a.io.vectors))
  {
    AddressesCount(a.io.vectors);
    VectorsGiveAddresses(base, |a.memory|, a.io.vectors);
  }

  /** The four ways a step ends without moving a byte. */
  lemma UnmovedStep(size: nat, base: nat, nonblock: bool, a: Side, b: Side, outcome: Outcome)
    requires a.Ok(size, base)
    requires
      if a.io.writing && a.pipe.readers == 0 then b == a.Stopped() && outcome == SigPipe
      else if !a.io.writing && a.pipe.used == 0 && a.pipe.writers == 0 then b == a.Stopped() && outcome == Done(0)
      else
        && a.Starved(size)
        && if nonblock then b == a.Stopped() && outcome == Done(if a.io.total > 0 then a.io.total else -EAGAIN)
           else b == a && outcome == Wait
    ensures Resumed(size, base, nonblock, a, b, outcome)
  {
  }

  /** The one way a step ends that does. */
  lemma MovedStep(size: nat, base: nat, nonblock: bool, a: Side, b: Side, outcome: Outcome)
    requires a.Ok(size, base) && size > 0
    requires if a.io.writing then a.pipe.readers > 0 else a.pipe.used > 0 || a.pipe.writers > 0
    requires !a.Starved(size)
    requires |Addresses(a.io.vectors)| == a.io.length && InWindow(base, |a.memory|, Addresses(a.io.vectors))
    requires Moved(base, a, b.(io := b.io.(active := true)), a.Quantum(size))
    requires Recorded(base, a, b, a.Quantum(size))
    requires b.io.active == (a.io.writing && b.io.total < a.io.length && !nonblock)
    requires outcome == if b.io.active then Wait else Done(b.io.total)
    ensures Resumed(size, base, nonblock, a, b, outcome)
  {
  }

  /** Can the pending transfer finish or make progress? */
  predicate Ready(size: nat, nonblock: bool, io: PipeIo, pipe: Pipe)
    requires pipe.used <= size
  {
    if nonblock then true
    else if !io.writing then pipe.used > 0 || pipe.writers == 0
    else pipe.readers == 0 || size - pipe.used >= if io.length <= size then io.length else 1
  }

  /** `linux_io_ready` is exact: a ready transfer completes or moves at least one byte,
      and an unready one changes nothing at all. */
  lemma ReadyExactly(size: nat, base: nat, nonblock: bool, a: Side, b: Side, outcome: Outcome)
    requires size > 0 && a.Ok(size, base) && Resumed(size, base, nonblock, a, b, outcome)
    ensures Ready(size, nonblock, a.io, a.pipe) <==> !b.io.active || b.io.total > a.io.total
    ensures !Ready(size, nonblock, a.io, a.pipe) ==> outcome == Wait && b == a
    ensures outcome == Wait <==> b.io.active
  {
  }

  lemma JoinedAppend(chunks: seq<Chunk>, c: Chunk)
    ensures Joined(chunks + [c]) == Joined(chunks) + c.data
  {
    assert (chunks + [c])[..|chunks|] == chunks;
  }

  lemma AtomicAppend(size: nat, chunks: seq<Chunk>, c: Chunk)
    requires Atomic(size, chunks) && (c.length <= size ==> c.from == 0 && |c.data| == c.length)
    ensures Atomic(size, chunks + [c])
  {
  }

  /** Conservation and atomicity survive every step. */
  lemma ResumedKeepsHistories(size: nat, base: nat, nonblock: bool, a: Side, b: Side, outcome: Outcome)
    requires size > 0 && a.Ok(size, base) && Resumed(size, base, nonblock, a, b, outcome)
    ensures b.pipe.Ok(size)
    ensures Joined(b.journal) == b.delivered + b.pipe.Contents()
    ensures Atomic(size, b.journal)
  {
    hide Joined, Atomic, VectorsInWindow, PipeIo.CursorOk, TotalLength, Addresses, Scatter;
    if b != a && b != a.Stopped() {
      TransferInWindow(size, base, a);
      var n := a.Quantum(size);
      assert Recorded(base, a, b, n);
      if a.io.writing {
        var data := Gather(a.memory, base, Addresses(a.io.vectors)[a.io.total..a.io.total + n]);
        var added := Chunk(a.io.length, a.io.total, data);
        JoinedAppend(a.journal, added);
        AtomicAppend(size, a.journal, added);
        assert a.delivered + (a.pipe.Contents() + data) == a.delivered + a.pipe.Contents() + data;
      } else {
        assert a.delivered + a.pipe.Contents()[..n] + a.pipe.Contents()[n..] == a.delivered + a.pipe.Contents();
      }
    }
  }

  // ------------------------------------------------------------ first-fit searches

  /** Lowest descriptor at or above `from` that `task` does not use; `fds` if none. */
  function FreeFd(files: map<Cell, nat>, task: nat, fds: nat, from: nat): (r: nat)
    requires from <= fds
    ensures from <= r <= fds
    ensures forall i :: from <= i < r ==> Cell(task, i) in files
    ensures r < fds ==> Cell(task, r) !in files
    decreases fds - from
  {
    if from < fds && Cell(task, from) in files then FreeFd(files, task, fds, from + 1) else from
  }

  /** Lowest description at or above `from` that nothing refers to. */
  function FreeDescription(descriptions: seq<OpenFile>, from: nat): (r: nat)
    requires from <= |descriptions|
    ensures from <= r <= |descriptions|
    ensures forall i :: from <= i < r ==> descriptions[i].refs > 0
    ensures r < |descriptions| ==> descriptions[r].refs == 0
    decreases |descriptions| - from
  {
    if from < |descriptions| && descriptions[from].refs > 0 then FreeDescription(descriptions, from + 1) else from
  }

  /** Lowest pipe slot at or above `from` with neither end alive. */
  function FreePipe(pipes: seq<Pipe>, from: nat): (r: nat)
    requires from <= |pipes|
    ensures from <= r <= |pipes|
    ensures forall i :: from <= i < r ==> !pipes[i].Idle()
    ensures r < |pipes| ==> pipes[r].Idle()
    decreases |pipes| - from
  {
    if from < |pipes| && !pipes[from].Idle() then FreePipe(pipes, from + 1) else from
  }

  // ------------------------------------------------------------ pigeonhole

  ghost function Row(task: nat, fds: nat): (r: set<Cell>)
    ensures |r| == fds
    ensures forall c :: c in r <==> c.task == task && c.fd < fds
  {
    if fds == 0 then {} else Row(task, fds - 1) + {Cell(task, fds - 1)}
  }

  ghost function Table(tasks: nat, fds: nat): (r: set<Cell>)
    ensures |r| == tasks * fds
    ensures forall c :: c in r <==> c.task < tasks && c.fd < fds
  {
    if tasks == 0 then {}
    else
      assert Table(tasks - 1, fds) !! Row(tasks - 1, fds);
      Table(tasks - 1, fds) + Row(tasks - 1, fds)
  }

  lemma SubsetSize<T>(a: set<T>, b: set<T>)
    requires a <= b
    ensures |a| <= |b|
  {
    assert b == a + (b - a);
  }

  /** Every live description is named by a cell, so there are no more of them than cells. */
  lemma {:induction false} LiveNeedCells(files: map<Cell, nat>, descriptions: seq<OpenFile>, live: set<nat>, cells: set<Cell>)
    requires RefsExact(files, descriptions)
    requires forall d :: d in live ==> d < |descriptions| && descriptions[d].refs > 0
    requires forall d :: d in live ==> Holders(files, d) <= cells
    ensures |live| <= |cells|
    decreases live
  {
    if live != {} {
      var d :| d in live;
      assert Holders(files, d) != {};
      var c :| c in Holders(files, d);
      forall e | e in live - {d} ensures Holders(files, e) <= cells - {c} {
      }
      LiveNeedCells(files, descriptions, live - {d}, cells - {c});
    }
  }

  ghost function Below(n: nat): (r: set<nat>)
    ensures |r| == n
    ensures forall i :: i in r <==> 0 <= i < n
  {
    if n == 0 then {} else Below(n - 1) + {n - 1}
  }

  /** The descriptions nothing refers to. */
  ghost function Dead(descriptions: seq<OpenFile>): (r: set<nat>)
    ensures forall d :: d in r <==> 0 <= d < |descriptions| && descriptions[d].refs == 0
  {
    set d | d in Below(|descriptions|) && descriptions[d].refs == 0
  }

  /** Descriptions never run out: with as many of them as the table has cells, each
      empty cell leaves a description free. */
  lemma FreeDescriptions(table: set<Cell>, files: map<Cell, nat>, descriptions: seq<OpenFile>, empty: set<Cell>)
    requires RefsExact(files, descriptions)
    requires |descriptions| == |table| && files.Keys <= table
    requires empty <= table && empty !! files.Keys
    ensures |Dead(descriptions)| >= |empty|
  {
    var dead := Dead(descriptions);
    var live := Below(|descriptions|) - dead;
    LiveNeedCells(files, descriptions, live, files.Keys);
    hide RefsExact;
    SubsetSize(files.Keys, table - empty);
    assert |table - empty| == |table| - |empty|;
    assert dead <= Below(|descriptions|);
    assert |live| == |Below(|descriptions|)| - |dead|;
  }

  lemma TwoDead(descriptions: seq<OpenFile>)
    requires |Dead(descriptions)| >= 2
    ensures FreeDescription(descriptions, 0) < |descriptions|
    ensures FreeDescription(descriptions, FreeDescription(descriptions, 0) + 1) < |descriptions|
  {
    var dead := Dead(descriptions);
    var x :| x in dead;
    assert |dead - {x}| >= 1;
    var y :| y in dead - {x};
  }

  lemma OneDead(descriptions: seq<OpenFile>)
    requires |Dead(descriptions)| >= 1
    ensures FreeDescription(descriptions, 0) < |descriptions|
  {
    var x :| x in Dead(descriptions);
  }

  /** So `create_pipe`, having found two free descriptors, finds two free descriptions... */
  lemma TwoFreeDescriptions(tasks: nat, fds: nat, files: map<Cell, nat>, descriptions: seq<OpenFile>, task: nat, a: nat, b: nat)
    requires RefsExact(files, descriptions) && CellsOk(tasks, fds, files, descriptions)
    requires |descriptions| == tasks * fds && task < tasks
    requires a < b < fds && Cell(task, a) !in files && Cell(task, b) !in files
    ensures FreeDescription(descriptions, 0) < |descriptions|
    ensures FreeDescription(descriptions, FreeDescription(descriptions, 0) + 1) < |descriptions|
  {
    var empty := {Cell(task, a), Cell(task, b)};
    assert |empty| == 2;
    FreeDescriptions(Table(tasks, fds), files, descriptions, empty);
    TwoDead(descriptions);
  }

  /** ... and `open`, having found a free descriptor, finds a free description. */
  lemma OneFreeDescription(tasks: nat, fds: nat, files: map<Cell, nat>, descriptions: seq<OpenFile>, task: nat, a: nat)
    requires RefsExact(files, descriptions) && CellsOk(tasks, fds, files, descriptions)
    requires |descriptions| == tasks * fds && task < tasks
    requires a < fds && Cell(task, a) !in files
    ensures FreeDescription(descriptions, 0) < |descriptions|
  {
    FreeDescriptions(Table(tasks, fds), files, descriptions, {Cell(task, a)});
    OneDead(descriptions);
  }

  // ------------------------------------------------------------ a step inside the tables

  /** The tables and histories as one value. */
  ghost predicate TransfersOk(size: nat, files: map<Cell, nat>, descriptions: seq<OpenFile>, pipes: seq<Pipe>,
                          pending: seq<PipeIo>, journal: seq<seq<Chunk>>, delivered: seq<seq<Byte>>)
  {
    && AllPendingOk(pending, files, descriptions, size)
    && PipesOk(size, pipes)
    && HistoriesOk(size, pipes, journal, delivered)
  }

  /** Nothing pending, nothing in any pipe, no history. */
  lemma FreshTransfers(size: nat, files: map<Cell, nat>, descriptions: seq<OpenFile>, pipes: seq<Pipe>,
                       pending: seq<PipeIo>, journal: seq<seq<Chunk>>, delivered: seq<seq<Byte>>)
    requires 0 < size <= INT_MAX && |pipes| == |journal| == |delivered|
    requires forall p :: 0 <= p < |pipes| ==> pipes[p].used == 0 && pipes[p].head == 0 && |pipes[p].data| == size
    requires forall p :: 0 <= p < |pipes| ==> journal[p] == [] && delivered[p] == []
    requires forall t :: 0 <= t < |pending| ==> !pending[t].active
    ensures TransfersOk(size, files, descriptions, pipes, pending, journal, delivered)
  {
    forall p | 0 <= p < |pipes| ensures pipes[p].Contents() == [] {
    }
  }

  /** What `linux_io_resume` finds in the tables is a well-formed transfer. */
  lemma PendingSide(size: nat, base: nat, memory: seq<Byte>, files: map<Cell, nat>, descriptions: seq<OpenFile>, pipes: seq<Pipe>,
                    pending: seq<PipeIo>, journal: seq<seq<Chunk>>, delivered: seq<seq<Byte>>, t: nat)
    requires TransfersOk(size, files, descriptions, pipes, pending, journal, delivered) && KindsOk(descriptions, pipes)
    requires t < |pending| && pending[t].active && VectorsInWindow(base, |memory|, pending[t].vectors)
    ensures Cell(t, pending[t].fd) in files && files[Cell(t, pending[t].fd)] < |descriptions|
    ensures var file := descriptions[files[Cell(t, pending[t].fd)]];
      && file.kind.PipeEnd? && file.kind.pipe < |pipes| && |journal| == |delivered| == |pipes|
      && Side(pending[t], pipes[file.kind.pipe], memory, journal[file.kind.pipe], delivered[file.kind.pipe]).Ok(size, base)
  {
  }

  /** ... and writing the result back keeps every table invariant. */
  lemma StepKeepsState(size: nat, base: nat, tasks: nat, fds: nat, files: map<Cell, nat>, descriptions: seq<OpenFile>,
                       pipes: seq<Pipe>, pending: seq<PipeIo>, journal: seq<seq<Chunk>>, delivered: seq<seq<Byte>>,
                       t: nat, p: nat, a: Side, b: Side, outcome: Outcome)
    requires size > 0 && TablesOk(tasks, fds, files, descriptions, pipes)
    requires TransfersOk(size, files, descriptions, pipes, pending, journal, delivered)
    requires t < |pending| && p < |pipes| && pending[t].active
    requires a == Side(pending[t], pipes[p], a.memory, journal[p], delivered[p]) && a.Ok(size, base)
    requires Cell(t, a.io.fd) in files && files[Cell(t, a.io.fd)] < |descriptions|
    requires Resumed(size, base, descriptions[files[Cell(t, a.io.fd)]].nonblock, a, b, outcome)
    requires b.io.CursorOk()
    ensures TablesOk(tasks, fds, files, descriptions, pipes[p := b.pipe])
    ensures TransfersOk(size, files, descriptions, pipes[p := b.pipe], pending[t := b.io], journal[p := b.journal], delivered[p := b.delivered])
    ensures |b.memory| == |a.memory|
  {
    var nonblock := descriptions[files[Cell(t, a.io.fd)]].nonblock;
    ResumedKeepsHistories(size, base, nonblock, a, b, outcome);
    ResumedKeepsPending(size, base, nonblock, a, b, outcome);
    hide Resumed, Side.Ok;
    EndsKept(descriptions, pipes, p, b.pipe);
    PendingKept(size, files, descriptions, pending, t, b.io);
    HistoriesKept(size, pipes, journal, delivered, p, b.pipe, b.journal, b.delivered);
    hide EndsExact, AllPendingOk, PipesOk, HistoriesOk, RefsExact, CellsOk;
  }

  lemma EndsKept(descriptions: seq<OpenFile>, pipes: seq<Pipe>, p: nat, q: Pipe)
    requires EndsExact(descriptions, pipes) && p < |pipes|
    requires q.readers == pipes[p].readers && q.writers == pipes[p].writers
    ensures EndsExact(descriptions, pipes[p := q])
  {
    hide Ends;
  }

  lemma PendingKept(size: nat, files: map<Cell, nat>, descriptions: seq<OpenFile>, pending: seq<PipeIo>, t: nat, io: PipeIo)
    requires AllPendingOk(pending, files, descriptions, size) && t < |pending| && pending[t].active
    requires io == pending[t].(active := io.active, index := io.index, offset := io.offset, total := io.total)
    requires io.CursorOk()
    requires io.active ==> io.total < io.length && (!io.writing || io.length <= size ==> io.total == 0)
    ensures AllPendingOk(pending[t := io], files, descriptions, size)
  {
    hide PipeIo.CursorOk;
  }

  lemma HistoriesKept(size: nat, pipes: seq<Pipe>, journal: seq<seq<Chunk>>, delivered: seq<seq<Byte>>,
                      p: nat, q: Pipe, chunks: seq<Chunk>, got: seq<Byte>)
    requires PipesOk(size, pipes) && HistoriesOk(size, pipes, journal, delivered) && p < |pipes|
    requires q.Ok(size) && Joined(chunks) == got + q.Contents() && Atomic(size, chunks)
    ensures PipesOk(size, pipes[p := q])
    ensures HistoriesOk(size, pipes[p := q], journal[p := chunks], delivered[p := got])
  {
    hide Joined, Atomic;
  }

  lemma ResumedKeepsPending(size: nat, base: nat, nonblock: bool, a: Side, b: Side, outcome: Outcome)
    requires size > 0 && a.Ok(size, base) && Resumed(size, base, nonblock, a, b, outcome)
    ensures b.pipe.readers == a.pipe.readers && b.pipe.writers == a.pipe.writers
    ensures b.io == a.io.(active := b.io.active, index := b.io.index, offset := b.io.offset, total := b.io.total)
    ensures |b.memory| == |a.memory|
    ensures b.io.active ==> b.io.total < b.io.length && (!b.io.writing || b.io.length <= size ==> b.io.total == 0)
  {
  }

  // ------------------------------------------------------------ the tables as one value

  /** Everything the tasks share through their descriptors. */
  datatype FileState = FileState(files: map<Cell, nat>, descriptions: seq<OpenFile>, pipes: seq<Pipe>,
                                 pending: seq<PipeIo>, journal: seq<seq<Chunk>>, delivered: seq<seq<Byte>>)
  {
    /** Does the transfer of slot `t` name a pipe end? */
    predicate OnPipe(t: nat) {
      t < |pending| && Cell(t, pending[t].fd) in files &&
      var d := files[Cell(t, pending[t].fd)];
      d < |descriptions| && descriptions[d].kind.PipeEnd? && descriptions[d].kind.pipe < |pipes|
    }

    function End(t: nat): OpenFile
      requires OnPipe(t)
    {
      descriptions[files[Cell(t, pending[t].fd)]]
    }

    function PipeOf(t: nat): (p: nat)
      requires OnPipe(t)
      ensures p < |pipes|
    {
      End(t).kind.pipe
    }

    /** linux_io_ready. */
    predicate CanGoOn(size: nat, t: nat) {
      OnPipe(t) && pending[t].active && pipes[PipeOf(t)].used <= size &&
      Ready(size, End(t).nonblock, pending[t], pipes[PipeOf(t)])
    }

    /** The transfer of slot `t`, its pipe, and the memory it works on. */
    function SideOf(t: nat, memory: seq<Byte>): Side
      requires OnPipe(t) && |journal| == |delivered| == |pipes|
    {
      Side(pending[t], pipes[PipeOf(t)], memory, journal[PipeOf(t)], delivered[PipeOf(t)])
    }
  }

  // ------------------------------------------------------------ whole-task operations

  /** The table after every cell of `task` was closed. */
  function WithoutTask(files: map<Cell, nat>, task: nat): map<Cell, nat> {
    map c | c in files && c.task != task :: files[c]
  }

  /** The table after `child` received a copy of the cells of `parent` below `fds`. */
  function WithCopies(files: map<Cell, nat>, parent: nat, child: nat, fds: nat): map<Cell, nat>
    requires parent != child
  {
    map c | c in files.Keys + (set d | d in files.Keys && d.task == parent && d.fd < fds :: Cell(child, d.fd)) ::
      if c.task == child && c.fd < fds && Cell(parent, c.fd) in files then files[Cell(parent, c.fd)] else
      if c in files then files[c] else 0
  }

  lemma WithCopiesAt(files: map<Cell, nat>, parent: nat, child: nat, fds: nat, c: Cell)
    requires parent != child && forall d :: d in files ==> d.task != child
    ensures c in WithCopies(files, parent, child, fds) <==>
      c in files || (c.task == child && c.fd < fds && Cell(parent, c.fd) in files)
    ensures c in WithCopies(files, parent, child, fds) ==>
      WithCopies(files, parent, child, fds)[c] == if c.task == child then files[Cell(parent, c.fd)] else files[c]
  {
    if c.task == child && c.fd < fds && Cell(parent, c.fd) in files {
      assert c in (set d | d in files.Keys && d.task == parent && d.fd < fds :: Cell(child, d.fd));
    }
  }

  lemma WithCopiesNone(files: map<Cell, nat>, parent: nat, child: nat)
    requires parent != child && forall d :: d in files ==> d.task != child
    ensures WithCopies(files, parent, child, 0) == files
  {
    forall c ensures c in WithCopies(files, parent, child, 0) <==> c in files {
      WithCopiesAt(files, parent, child, 0, c);
    }
  }

  /** Copying one more descriptor. */
  lemma WithCopiesStep(files: map<Cell, nat>, parent: nat, child: nat, fd: nat)
    requires parent != child && forall d :: d in files ==> d.task != child
    ensures WithCopies(files, parent, child, fd + 1) ==
      if Cell(parent, fd) in files then WithCopies(files, parent, child, fd)[Cell(child, fd) := files[Cell(parent, fd)]]
      else WithCopies(files, parent, child, fd)
    ensures Cell(child, fd) !in WithCopies(files, parent, child, fd)
  {
    hide WithCopies;
    var left := WithCopies(files, parent, child, fd + 1);
    var before := WithCopies(files, parent, child, fd);
    WithCopiesAt(files, parent, child, fd, Cell(child, fd));
    var right := if Cell(parent, fd) in files then before[Cell(child, fd) := files[Cell(parent, fd)]] else before;
    forall c ensures (c in left <==> c in right) && (c in left ==> left[c] == right[c]) {
      WithCopiesAt(files, parent, child, fd + 1, c);
      WithCopiesAt(files, parent, child, fd, c);
    }
    assert left.Keys == right.Keys;
  }

  /** The close-on-exec marks `child` copies from the cells of `parent` below `fds`. */
  ghost function CopiedMarks(marks: set<Cell>, parent: nat, child: nat, fds: nat): (r: set<Cell>)
    ensures forall c :: c in r <==> c.task == child && c.fd < fds && Cell(parent, c.fd) in marks
  {
    if fds == 0 then {}
    else
      CopiedMarks(marks, parent, child, fds - 1)
      + if Cell(parent, fds - 1) in marks then {Cell(child, fds - 1)} else {}
  }

  // ------------------------------------------------------------ publishing a pipe

  lemma {:induction false} PublishPipe(tasks: nat, fds: nat, files: map<Cell, nat>, descriptions: seq<OpenFile>, pipes: seq<Pipe>,
                    ca: Cell, cb: Cell, d0: nat, d1: nat, p: nat, read: OpenFile, write: OpenFile, made: Pipe)
    requires TablesOk(tasks, fds, files, descriptions, pipes)
    requires ca != cb && ca !in files && cb !in files
    requires ca.task < tasks && ca.fd < fds && cb.task < tasks && cb.fd < fds
    requires d0 < d1 < |descriptions| && descriptions[d0].refs == 0 && descriptions[d1].refs == 0
    requires p < |pipes| && pipes[p].Idle() && made.readers == 1 && made.writers == 1
    requires read.refs == 1 && read.kind == PipeEnd(p) && read.access == ReadOnly
    requires write.refs == 1 && write.kind == PipeEnd(p) && write.access == WriteOnly
    ensures TablesOk(tasks, fds, files[ca := d0][cb := d1], descriptions[d0 := read][d1 := write], pipes[p := made])
  {
    AddHolder(files, descriptions, ca, d0, read);
    AddHolder(files[ca := d0], descriptions[d0 := read], cb, d1, write);
    GainEnd(descriptions, d0, read);
    GainEnd(descriptions[d0 := read], d1, write);
    hide RefsExact, Ends;
    assert Ends(descriptions, p, false) == {} && Ends(descriptions, p, true) == {};
    assert EndsExact(descriptions[d0 := read][d1 := write], pipes[p := made]);
  }

  /** A new pipe starts with empty histories and disturbs no transfer in progress. */
  lemma PublishState(size: nat, files: map<Cell, nat>, descriptions: seq<OpenFile>, pipes: seq<Pipe>,
                     pending: seq<PipeIo>, journal: seq<seq<Chunk>>, delivered: seq<seq<Byte>>,
                     ca: Cell, cb: Cell, d0: nat, d1: nat, p: nat, read: OpenFile, write: OpenFile, made: Pipe)
    requires TransfersOk(size, files, descriptions, pipes, pending, journal, delivered) && RefsExact(files, descriptions)
    requires ca != cb && ca !in files && cb !in files
    requires d0 < d1 < |descriptions| && descriptions[d0].refs == 0 && descriptions[d1].refs == 0
    requires p < |pipes| && made.Ok(size) && made.used == 0
    ensures TransfersOk(size, files[ca := d0][cb := d1], descriptions[d0 := read][d1 := write], pipes[p := made],
                    pending, journal[p := []], delivered[p := []])
  {
    forall t | 0 <= t < |pending| && pending[t].active
      ensures PendingOk(pending[t], t, files[ca := d0][cb := d1], descriptions[d0 := read][d1 := write], size)
    {
      var c := Cell(t, pending[t].fd);
      assert c in Holders(files, files[c]);
    }
    assert made.Contents() == [];
  }

  // ------------------------------------------------------------ checking a request

  datatype Request = Refused(error: int) | Transfer(vectors: seq<IoVector>)

  /** The vectors stored at byte `at` of user memory. */
  function VectorsAt(memory: seq<Byte>, at: nat, count: nat): (r: seq<IoVector>)
    requires at + 8 * count <= |memory|
    ensures |r| == count
  {
    seq(count, i requires 0 <= i < count => IoVector(Load32(memory, at + 8 * i), Load32(memory, at + 8 * i + 4)))
  }

  predicate RangeOk(base: nat, size: nat, v: IoVector) {
    base <= v.address <= base + size && v.length <= base + size - v.address
  }

  /** First complaint about a list of vectors, the lengths before them adding up to `sum`. */
  function VectorFault(base: nat, size: nat, vs: seq<IoVector>, sum: nat): (r: int)
    requires sum <= INT_MAX
    ensures r <= 0
    ensures r == 0 <==> sum + TotalLength(vs) <= INT_MAX && VectorsInWindow(base, size, vs)
  {
    if vs == [] then 0
    else if vs[0].length > INT_MAX - sum then -EINVAL
    else if vs[0].length > 0 && !RangeOk(base, size, vs[0]) then -EFAULT
    else
      assert VectorsInWindow(base, size, vs) <==> VectorsInWindow(base, size, vs[1..]) by {
        assert forall i :: 0 < i < |vs| ==> vs[i] == vs[1..][i - 1];
      }
      VectorFault(base, size, vs[1..], sum + vs[0].length)
  }

  /** What `pipe_transfer` makes of its arguments. */
  function PipeRequest(file: OpenFile, memory: seq<Byte>, base: nat, address: nat, count: nat,
                       writing: bool, vectored: bool): Request
  {
    if (if writing then !file.Writes() else file.access == WriteOnly) then Refused(-EBADF)
    else if vectored && count > IOV_MAX then Refused(-EINVAL)
    else if vectored && count > 0 && !RangeOk(base, |memory|, IoVector(address, 8 * count)) then Refused(-EFAULT)
    else
      var vs := if !vectored then [IoVector(address, count)]
                else if count == 0 then []
                else VectorsAt(memory, address - base, count);
      var fault := VectorFault(base, |memory|, vs, 0);
      if fault != 0 then Refused(fault)
      else if TotalLength(vs) == 0 then Refused(0)
      else Transfer(vs)
  }

  lemma {:induction false} VectorFaultSuffix(base: nat, size: nat, vs: seq<IoVector>, i: nat)
    requires i <= |vs| && TotalLength(vs[..i]) <= INT_MAX
    requires VectorFault(base, size, vs, 0) == VectorFault(base, size, vs[i..], TotalLength(vs[..i]))
    ensures i < |vs| ==> vs[i..][0] == vs[i] && vs[i..][1..] == vs[i + 1..]
    ensures i < |vs| ==> TotalLength(vs[..i + 1]) == TotalLength(vs[..i]) + vs[i].length
  {
    TotalLengthPrefix(vs, i);
  }

  /** What a successful `create_pipe` does: the two lowest descriptors name the ends,
      made from the two lowest dead descriptions, of the lowest idle pipe slot, and the
      pair of descriptors is stored at byte `at` of user memory. */
  ghost predicate Published(task: nat, fds: nat, cloexec: bool, nonblock: bool, at: int,
                            files: map<Cell, nat>, files': map<Cell, nat>, marks: set<Cell>, marks': set<Cell>,
                            descriptions: seq<OpenFile>, descriptions': seq<OpenFile>, pipes: seq<Pipe>, pipes': seq<Pipe>,
                            memory: seq<Byte>, memory': seq<Byte>)
  {
    var a := FreeFd(files, task, fds, 0);
    var b := if a < fds then FreeFd(files, task, fds, a + 1) else fds;
    var d0 := FreeDescription(descriptions, 0);
    var d1 := if d0 < |descriptions| then FreeDescription(descriptions, d0 + 1) else |descriptions|;
    var p := FreePipe(pipes, 0);
    && a < b < fds <= INT_MAX && d0 < d1 < |descriptions| && p < |pipes| && 0 <= at && at + 8 <= |memory|
    && files' == files[Cell(task, a) := d0][Cell(task, b) := d1]
    && marks' == (if cloexec then marks + {Cell(task, a), Cell(task, b)} else marks)
    && descriptions' == descriptions[d0 := OpenFile(1, ReadOnly, false, nonblock, PipeEnd(p))]
                                    [d1 := OpenFile(1, WriteOnly, false, nonblock, PipeEnd(p))]
    && pipes' == pipes[p := Pipe(1, 1, 0, 0, pipes[p].data)]
    && memory' == Store32(Store32(memory, at, a), at + 4, b)
  }

  /** A refusal is an errno, or 0 for an empty transfer. */
  lemma RequestErrors(file: OpenFile, memory: seq<Byte>, base: nat, address: nat, count: nat, writing: bool, vectored: bool)
    requires PipeRequest(file, memory, base, address, count, writing, vectored).Refused?
    ensures PipeRequest(file, memory, base, address, count, writing, vectored).error in {0, -EBADF, -EINVAL, -EFAULT}
  {
    var vs := if !vectored then [IoVector(address, count)]
              else if count == 0 || count > IOV_MAX || !RangeOk(base, |memory|, IoVector(address, 8 * count)) then []
              else VectorsAt(memory, address - base, count);
    FaultErrors(base, |memory|, vs, 0);
  }

  lemma {:induction false} FaultErrors(base: nat, size: nat, vs: seq<IoVector>, sum: nat)
    requires sum <= INT_MAX
    ensures VectorFault(base, size, vs, sum) in {0, -EINVAL, -EFAULT}
    decreases |vs|
  {
    if vs != [] && vs[0].length <= INT_MAX - sum {
      FaultErrors(base, size, vs[1..], sum + vs[0].length);
    }
  }

  // ------------------------------------------------------------ what a request means to its caller

  ghost predicate Words(vs: seq<IoVector>) {
    forall i :: 0 <= i < |vs| ==> vs[i].address < U32 && vs[i].length < U32
  }

  /** An array of vectors as a program lays it out: address and length, one after the other. */
  ghost function Iovecs(vs: seq<IoVector>): (r: seq<Byte>)
    requires Words(vs)
    ensures |r| == 8 * |vs|
  {
    if vs == [] then [] else
      var rest := vs[1..];
      assert forall i :: 0 <= i < |rest| ==> rest[i] == vs[i + 1];
      Bytes32(vs[0].address) + Bytes32(vs[0].length) + Iovecs(rest)
  }

  /** The array stands at `address` of user memory. */
  ghost predicate StandsAt(memory: seq<Byte>, base: nat, address: nat, vs: seq<IoVector>) {
    && Words(vs) && base <= address && address - base + 8 * |vs| <= |memory|
    && memory[address - base..address - base + 8 * |vs|] == Iovecs(vs)
  }

  lemma {:induction false} ArrayRead(memory: seq<Byte>, at: nat, vs: seq<IoVector>)
    requires Words(vs) && at + 8 * |vs| <= |memory| && memory[at..at + 8 * |vs|] == Iovecs(vs)
    ensures VectorsAt(memory, at, |vs|) == vs
    decreases |vs|
  {
    hide Bytes32, Load32;
    if vs != [] {
      var rest := vs[1..];
      assert forall i :: 0 <= i < |rest| ==> rest[i] == vs[i + 1];
      var all := memory[at..at + 8 * |vs|];
      assert all[0..4] == Bytes32(vs[0].address) && all[4..8] == Bytes32(vs[0].length) && all[8..] == Iovecs(rest);
      SliceOfSlice(memory, at, at + 8 * |vs|, 0, 4);
      SliceOfSlice(memory, at, at + 8 * |vs|, 4, 8);
      SliceOfSlice(memory, at, at + 8 * |vs|, 8, 8 * |vs|);
      LoadOf(memory, at, vs[0].address);
      LoadOf(memory, at + 4, vs[0].length);
      ArrayRead(memory, at + 8, rest);
      forall i | 0 <= i < |vs| ensures VectorsAt(memory, at, |vs|)[i] == vs[i] {
        if i > 0 {
          assert VectorsAt(memory, at + 8, |rest|)[i - 1] == rest[i - 1];
        }
      }
    }
  }

  /** What becomes of a request for these vectors, wherever they came from. */
  ghost function Verdict(closed: bool, base: nat, size: nat, vs: seq<IoVector>): Request {
    if closed then Refused(-EBADF)
    else if |vs| > IOV_MAX then Refused(-EINVAL)
    else if VectorFault(base, size, vs, 0) != 0 then Refused(VectorFault(base, size, vs, 0))
    else if TotalLength(vs) == 0 then Refused(0)
    else Transfer(vs)
  }

  lemma VectoredIs(file: OpenFile, memory: seq<Byte>, base: nat, address: nat, vs: seq<IoVector>, writing: bool)
    requires StandsAt(memory, base, address, vs)
    ensures PipeRequest(file, memory, base, address, |vs|, writing, true)
         == Verdict(file.access == if writing then ReadOnly else WriteOnly, base, |memory|, vs)
  {
    hide Iovecs, VectorFault, TotalLength, VectorsAt;
    ArrayRead(memory, address - base, vs);
    assert VectorsAt(memory, address - base, |vs|) == vs;
  }

  /** readv and writev take the vectors their caller laid out, in that order, and refuse for
      exactly these reasons. */
  lemma VectoredMeans(file: OpenFile, memory: seq<Byte>, base: nat, address: nat, vs: seq<IoVector>, writing: bool)
    requires StandsAt(memory, base, address, vs)
    ensures var request := PipeRequest(file, memory, base, address, |vs|, writing, true);
      var closed := file.access == if writing then ReadOnly else WriteOnly;
      && (request == Refused(-9) <==> closed)
      && (request == Transfer(vs) <==>
            !closed && |vs| <= 1024 && 0 < TotalLength(vs) <= 0x7fff_ffff && VectorsInWindow(base, |memory|, vs))
      && (request == Refused(0) <==> !closed && |vs| <= 1024 && TotalLength(vs) == 0)
      && (!closed && |vs| > 1024 ==> request == Refused(-22))
      && (request.Transfer? ==> request.vectors == vs)
      && (request.Refused? ==> request.error in {0, -9, -14, -22})
  {
    hide StandsAt, PipeRequest, TotalLength, VectorsInWindow, VectorFault;
    VectoredIs(file, memory, base, address, vs, writing);
    FaultErrors(base, |memory|, vs, 0);
    NothingLong(base, |memory|, vs);
  }

  lemma {:induction false} NothingLong(base: nat, size: nat, vs: seq<IoVector>)
    ensures TotalLength(vs) == 0 ==> VectorsInWindow(base, size, vs)
  {
    if vs != [] {
      NothingLong(base, size, vs[1..]);
      assert forall i :: 0 < i < |vs| ==> vs[i] == vs[1..][i - 1];
    }
  }

  /** read and write take one vector. */
  lemma PlainMeans(file: OpenFile, memory: seq<Byte>, base: nat, address: nat, count: nat, writing: bool)
    ensures var request := PipeRequest(file, memory, base, address, count, writing, false);
      var closed := file.access == if writing then ReadOnly else WriteOnly;
      && (request == Refused(-9) <==> closed)
      && (request == Refused(0) <==> !closed && count == 0)
      && (request == Refused(-22) <==> !closed && count > 0x7fff_ffff)
      && (request == Refused(-14) <==> !closed && 0 < count <= 0x7fff_ffff && !(base <= address && address + count <= base + |memory|))
      && (request.Transfer? ==> request.vectors == [IoVector(address, count)])
  {
    var vs := [IoVector(address, count)];
    assert vs[1..] == [];
  }

  // ------------------------------------------------------------ what a transfer means to its caller

  /** The bytes the vectors cover, vector after vector. */
  ghost function Texts(memory: seq<Byte>, base: nat, vs: seq<IoVector>): seq<Byte>
    requires VectorsInWindow(base, |memory|, vs)
  {
    if vs == [] then [] else
      var rest := vs[1..];
      assert forall i :: 0 <= i < |rest| ==> rest[i] == vs[i + 1];
      (if vs[0].length > 0 then memory[vs[0].address - base..vs[0].address - base + vs[0].length] else []) + Texts(memory, base, rest)
  }

  lemma {:induction false} GatherTexts(memory: seq<Byte>, base: nat, vs: seq<IoVector>)
    requires VectorsInWindow(base, |memory|, vs)
    ensures InWindow(base, |memory|, Addresses(vs)) && Gather(memory, base, Addresses(vs)) == Texts(memory, base, vs)
  {
    VectorsGiveAddresses(base, |memory|, vs);
    if vs != [] {
      var rest := vs[1..];
      assert forall i :: 0 <= i < |rest| ==> rest[i] == vs[i + 1];
      GatherTexts(memory, base, rest);
      GatherJoin(memory, base, Run(vs[0]), Addresses(rest));
      GatherRun(memory, base, vs[0]);
    }
  }

  lemma GatherRun(memory: seq<Byte>, base: nat, v: IoVector)
    requires v.length > 0 ==> base <= v.address && v.address + v.length <= base + |memory|
    ensures InWindow(base, |memory|, Run(v))
    ensures Gather(memory, base, Run(v)) == if v.length > 0 then memory[v.address - base..v.address - base + v.length] else []
  {
  }

  /** A write puts the texts of its vectors into the ring, from where it stood, in their order; its
      result is their number. */
  lemma WriteMeans(size: nat, base: nat, nonblock: bool, a: Side, b: Side, outcome: Outcome)
    requires size > 0 && a.Ok(size, base) && Resumed(size, base, nonblock, a, b, outcome) && a.io.writing
    ensures b.memory == a.memory && b.pipe.head < |b.pipe.data| && b.pipe.used <= |b.pipe.data|
    ensures a.io.total <= b.io.total <= |Texts(a.memory, base, a.io.vectors)|
    ensures b.pipe.Contents() == a.pipe.Contents() + Texts(a.memory, base, a.io.vectors)[a.io.total..b.io.total]
    ensures outcome == SigPipe <==> a.pipe.readers == 0
    ensures outcome.Done? ==> if b.io.total == 0 then outcome.value == -11 else outcome.value == b.io.total
    ensures outcome.Done? && !nonblock ==> b.io.total == |Texts(a.memory, base, a.io.vectors)|
  {
    hide Texts, Ring, VectorsInWindow, PipeIo.CursorOk, Joined, Atomic, Scatter;
    TransferInWindow(size, base, a);
    GatherTexts(a.memory, base, a.io.vectors);
    var all, t, n := Addresses(a.io.vectors), a.io.total, b.io.total - a.io.total;
    if b != a && b != a.Stopped() {
      assert Gather(a.memory, base, all[t..t + n]) == Gather(a.memory, base, all)[t..t + n];
    } else {
      assert Texts(a.memory, base, a.io.vectors)[t..t] == [];
    }
  }

  /** A read takes the front of the ring, as much as is there and asked for, into the memory of its
      vectors in their order; its result is that number, 0 only at the end, -11 only when asked not
      to wait. */
  lemma ReadMeans(size: nat, base: nat, nonblock: bool, a: Side, b: Side, outcome: Outcome)
    requires size > 0 && a.Ok(size, base) && Resumed(size, base, nonblock, a, b, outcome) && !a.io.writing
    ensures |b.memory| == |a.memory| && b.pipe.head < |b.pipe.data| && b.pipe.used <= |b.pipe.data|
    ensures b.io.total <= a.pipe.used == |a.pipe.Contents()| && b.pipe.Contents() == a.pipe.Contents()[b.io.total..]
    ensures b.io.total == if a.pipe.used < |Texts(a.memory, base, a.io.vectors)| then a.pipe.used else |Texts(a.memory, base, a.io.vectors)|
    ensures b.io.total <= |Texts(b.memory, base, a.io.vectors)|
    ensures Apart(Addresses(a.io.vectors)) ==> Texts(b.memory, base, a.io.vectors)[..b.io.total] == a.pipe.Contents()[..b.io.total]
    ensures outcome == if a.pipe.used > 0 then Done(b.io.total)
                       else if a.pipe.writers == 0 then Done(0) else if nonblock then Done(-11) else Wait
  {
    hide Texts, Ring, VectorsInWindow, PipeIo.CursorOk, Joined, Atomic, Scatter, Apart;
    TransferInWindow(size, base, a);
    GatherTexts(a.memory, base, a.io.vectors);
    ResumedKeepsPending(size, base, nonblock, a, b, outcome);
    WindowKept(base, |a.memory|, |b.memory|, a.io.vectors);
    GatherTexts(b.memory, base, a.io.vectors);
    var all, n := Addresses(a.io.vectors), b.io.total;
    if b != a && b != a.Stopped() {
      assert b.memory == Scatter(a.memory, base, all[..n], a.pipe.Contents()[..n]);
      if Apart(all) {
        ApartPrefix(all, n);
        ScatterReads(a.memory, base, all[..n], a.pipe.Contents()[..n]);
        assert Gather(b.memory, base, all)[..n] == Gather(b.memory, base, all[..n]);
      }
    }
  }

  /** No address twice. */
  ghost predicate Apart(addresses: seq<nat>) {
    forall i, j :: 0 <= i < j < |addresses| ==> addresses[i] != addresses[j]
  }

  lemma ApartPrefix(addresses: seq<nat>, n: nat)
    requires Apart(addresses) && n <= |addresses|
    ensures forall i, j :: 0 <= i < j < n ==> addresses[..n][i] != addresses[..n][j]
  {
  }

  lemma WindowKept(base: nat, size: nat, size': nat, vs: seq<IoVector>)
    requires VectorsInWindow(base, size, vs) && size' == size
    ensures VectorsInWindow(base, size', vs)
  {
  }

  /** The error numbers, as Linux on i386 has them. */
  lemma ErrorNumbers()
    ensures EBADF == 9 && EAGAIN == 11 && EFAULT == 14 && EINVAL == 22 && ENFILE == 23 && EMFILE == 24
  {
  }
}
