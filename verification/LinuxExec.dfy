/** linux_exec.c: building the new program's memory and its initial stack. */
module LinuxExec {
  import opened Arithmetic
  import opened Bytes
  import opened CStrings
  import opened LinuxMemory
  import opened ElfFormat
  import opened ExecStaging

  // ------------------------------------------------------------ the image

  /** The window with the file parts of the first `n` segments in place. */
  function Loaded(plan: Plan, image: seq<Byte>, n: nat): (r: seq<Byte>)
    requires Installable(plan, |image|) && n <= |plan.segments|
    ensures |r| == WINDOW
  {
    if n == 0 then Zeros(WINDOW)
    else
      var s := plan.segments[n - 1];
      assert SegmentOk(s, plan.base, |image|);
      Splice(Loaded(plan, image, n - 1), s.address - plan.base, image[s.offset..s.offset + s.fileSize])
  }

  /** A segment is its file bytes followed by zeros. */
  ghost predicate SegmentIn(arena: seq<Byte>, base: nat, image: seq<Byte>, s: Segment)
    requires |arena| == WINDOW && SegmentOk(s, base, |image|)
  {
    var at := s.address - base;
    && arena[at..at + s.fileSize] == image[s.offset..s.offset + s.fileSize]
    && forall i :: at + s.fileSize <= i < at + s.memorySize ==> arena[i] == 0
  }

  lemma {:induction false} LoadedSegment(plan: Plan, image: seq<Byte>, n: nat, k: nat)
    requires Installable(plan, |image|) && k < n <= |plan.segments|
    ensures SegmentOk(plan.segments[k], plan.base, |image|) && SegmentIn(Loaded(plan, image, n), plan.base, image, plan.segments[k])
    decreases n
  {
    hide SegmentOk, SegmentsApart, SegmentIn, Splice, Zeros;
    var s, t := plan.segments[n - 1], plan.segments[k];
    assert SegmentOk(s, plan.base, |image|) && SegmentOk(t, plan.base, |image|);
    if k < n - 1 {
      LoadedSegment(plan, image, n - 1, k);
      assert SegmentsApart(t, s);
      SplicedApart(Loaded(plan, image, n - 1), plan.base, image, s, t);
    } else {
      LoadedZero(plan, image, n - 1, s);
      SplicedSelf(Loaded(plan, image, n - 1), plan.base, image, s);
    }
  }

  lemma SplicedApart(arena: seq<Byte>, base: nat, image: seq<Byte>, s: Segment, t: Segment)
    requires |arena| == WINDOW && SegmentOk(s, base, |image|) && SegmentOk(t, base, |image|) && SegmentsApart(t, s)
    requires SegmentIn(arena, base, image, t)
    ensures SegmentIn(Splice(arena, s.address - base, image[s.offset..s.offset + s.fileSize]), base, image, t)
  {
    var at := t.address - base;
    assert Splice(arena, s.address - base, image[s.offset..s.offset + s.fileSize])[at..at + t.fileSize] == arena[at..at + t.fileSize];
  }

  lemma SplicedSelf(arena: seq<Byte>, base: nat, image: seq<Byte>, s: Segment)
    requires |arena| == WINDOW && SegmentOk(s, base, |image|)
    requires forall i :: s.address - base <= i < s.address - base + s.memorySize ==> arena[i] == 0
    ensures SegmentIn(Splice(arena, s.address - base, image[s.offset..s.offset + s.fileSize]), base, image, s)
  {
  }

  /** What is apart from every loaded segment is still zero. */
  lemma {:induction false} LoadedZero(plan: Plan, image: seq<Byte>, n: nat, t: Segment)
    requires Installable(plan, |image|) && n <= |plan.segments| && SegmentOk(t, plan.base, |image|)
    requires forall j :: 0 <= j < n ==> SegmentsApart(plan.segments[j], t)
    ensures forall i :: t.address - plan.base <= i < t.address - plan.base + t.memorySize ==> Loaded(plan, image, n)[i] == 0
    decreases n
  {
    if n > 0 {
      assert SegmentOk(plan.segments[n - 1], plan.base, |image|);
      LoadedZero(plan, image, n - 1, t);
    }
  }

  /** A segment has a byte of the file at offset `i` of the window. */
  predicate Fills(s: Segment, base: nat, i: nat) {
    s.address <= base + i < s.address + s.fileSize
  }

  /** Where no segment puts a byte there is none. */
  lemma {:induction false} LoadedElse(plan: Plan, image: seq<Byte>, n: nat, i: nat)
    requires Installable(plan, |image|) && n <= |plan.segments| && i < WINDOW
    requires forall k :: 0 <= k < n ==> !Fills(plan.segments[k], plan.base, i)
    ensures Loaded(plan, image, n)[i] == 0
    decreases n
  {
    if n > 0 {
      assert SegmentOk(plan.segments[n - 1], plan.base, |image|) && !Fills(plan.segments[n - 1], plan.base, i);
      LoadedElse(plan, image, n - 1, i);
    }
  }

  /** Writing in the stack leaves the segments alone. */
  lemma SegmentKept(arena: seq<Byte>, arena1: seq<Byte>, base: nat, image: seq<Byte>, s: Segment)
    requires |arena| == |arena1| == WINDOW && SegmentOk(s, base, |image|) && SegmentIn(arena, base, image, s)
    requires forall i :: 0 <= i < WINDOW - STACK ==> arena1[i] == arena[i]
    ensures SegmentIn(arena1, base, image, s)
  {
    var at := s.address - base;
    assert arena1[at..at + s.fileSize] == arena[at..at + s.fileSize];
  }

  // ------------------------------------------------------------ words on the stack

  /** Words as they lie in memory. */
  function WordBytes(ws: seq<Word>): (r: seq<Byte>)
    ensures |r| == 4 * |ws|
  {
    if ws == [] then [] else WordBytes(ws[..|ws| - 1]) + Bytes32(ws[|ws| - 1])
  }

  lemma {:induction false} WordBytesAt(ws: seq<Word>, i: nat)
    requires i < |ws|
    ensures WordBytes(ws)[4 * i..4 * i + 4] == Bytes32(ws[i])
    decreases |ws|
  {
    var n := |ws| - 1;
    if i < n {
      WordBytesAt(ws[..n], i);
      assert WordBytes(ws)[4 * i..4 * i + 4] == WordBytes(ws[..n])[4 * i..4 * i + 4];
    }
  }

  /** `ws` lies in the arena from `at` on. */
  ghost predicate WordsIn(arena: seq<Byte>, at: nat, ws: seq<Word>) {
    at + 4 * |ws| <= |arena| && arena[at..at + 4 * |ws|] == WordBytes(ws)
  }

  lemma WordIn(arena: seq<Byte>, at: nat, ws: seq<Word>, i: nat)
    requires WordsIn(arena, at, ws) && i < |ws|
    ensures at + 4 * i + 4 <= |arena| && Load32(arena, at + 4 * i) == ws[i]
  {
    WordBytesAt(ws, i);
    SliceOfSlice(arena, at, at + 4 * |ws|, 4 * i, 4 * i + 4);
    LoadOf(arena, at + 4 * i, ws[i]);
  }

  /** The pointers to a list of staged strings. */
  function Pointers(offsets: seq<nat>, strings: nat): (r: seq<Word>)
    requires forall i :: 0 <= i < |offsets| ==> strings + offsets[i] < U32
    ensures |r| == |offsets| && forall i :: 0 <= i < |offsets| ==> r[i] == strings + offsets[i]
  {
    seq(|offsets|, i requires 0 <= i < |offsets| => strings + offsets[i])
  }

  /** The auxiliary vector of the new program. */
  function Auxv(phdr: Word, phnum: Word, entry: Word, uid: Word, execfn: Word): (r: seq<Word>)
    ensures |r| == 28
  {
    [3, phdr, 4, 32, 5, phnum, 6, 4096, 7, 0, 8, 0, 9, entry, 11, uid, 12, uid, 13, uid, 14, uid, 23, 0, 31, execfn, 0, 0]
  }

  /** argc, argv, NULL, envp, NULL and the auxiliary vector, as one run of words. */
  function StackWords(argc: Word, argv: seq<Word>, envp: seq<Word>, auxv: seq<Word>): seq<Word> {
    [argc] + argv + [0] + envp + [0] + auxv
  }

  /** A string staged at `offset` is, once copied to `at`, a text of the new program. */
  lemma CopiedText(strings: seq<Byte>, used: nat, offset: nat, text: seq<Byte>, arena: seq<Byte>, at: nat, base: nat)
    requires StoredAt(strings, used, offset, text) && at + used <= |arena| && arena[at..at + used] == strings[..used]
    ensures TextAt(View(base, arena), base + at + offset, text)
  {
    var p := at + offset;
    SliceOfSlice(arena, at, at + used, offset, offset + |text|);
    SliceOfSlice(strings, 0, used, offset, offset + |text|);
    assert strings[0..used] == strings[..used];
    assert arena[p + |text|] == arena[at..at + used][offset + |text|] == strings[..used][offset + |text|];
  }

  /** Pointers to copied strings, followed by a null word, are a vector of the new program. */
  lemma CopiedVector(strings: seq<Byte>, used: nat, offsets: seq<nat>, first: nat, list: seq<seq<Byte>>, arena: seq<Byte>,
                     at: nat, base: nat, sp: nat, ws: seq<Word>, k: nat)
    requires Listed(strings, used, offsets, first, list) && at + used <= |arena| && arena[at..at + used] == strings[..used]
    requires base > 0 && base + |arena| < U32 && WordsIn(arena, sp, ws) && k + |list| < |ws| && ws[k + |list|] == 0
    requires forall i :: first <= i < first + |list| ==> base + at + offsets[i] < U32
    requires ws[k..k + |list|] == Pointers(offsets[first..first + |list|], base + at)
    ensures VectorAt(View(base, arena), base + sp + 4 * k, list)
  {
    hide StoredAt, Load32, WordsIn;
    var v, address := View(base, arena), base + sp + 4 * k;
    WordIn(arena, sp, ws, k + |list|);
    forall i | 0 <= i < |list|
      ensures WordAt(v, address + 4 * i) != 0 && TextAt(v, WordAt(v, address + 4 * i), list[i])
    {
      WordIn(arena, sp, ws, k + i);
      assert ws[k + i] == ws[k..k + |list|][i];
      CopiedText(strings, used, offsets[first + i], list[i], arena, at, base);
    }
  }

  // ------------------------------------------------------------ install_image

  /** What the new program finds: its stack pointer, arguments, environment and auxiliary vector. */
  ghost predicate StackBuilt(v: View, plan: Plan, image: seq<Byte>, argv: seq<seq<Byte>>, envp: seq<seq<Byte>>, path: seq<Byte>, uid: Word, stack: nat)
    requires Installable(plan, |image|)
  {
    && stack % 16 == 0 && InUser(v, stack, 0) && stack >= v.base + WINDOW - STACK && stack + 4 * (31 + |argv| + |envp|) <= v.base + |v.arena|
    && WordAt(v, stack) == |argv|
    && VectorAt(v, stack + 4, argv)
    && VectorAt(v, stack + 4 * (2 + |argv|), envp)
    && exists phdr: Word, execfn: Word ::
         AuxAt(v, stack + 4 * (3 + |argv| + |envp|), plan, phdr, uid, execfn) && TextAt(v, execfn, path) && TableAt(v, plan, image, phdr)
  }

  /** The auxiliary vector stands at `address`. */
  ghost predicate AuxAt(v: View, address: int, plan: Plan, phdr: Word, uid: Word, execfn: Word) {
    plan.phnum < U32 && plan.entry < U32 && v.base <= address && WordsIn(v.arena, address - v.base, Auxv(phdr, plan.phnum, plan.entry, uid, execfn))
  }

  /** AT_PHDR names the program headers: in the segment that holds them, or a copy of the table. */
  ghost predicate TableAt(v: View, plan: Plan, image: seq<Byte>, phdr: Word)
    requires Installable(plan, |image|)
  {
    if plan.phdr != 0 then phdr == plan.phdr
    else
      && InUser(v, phdr, plan.phnum * ENTRY)
      && v.arena[phdr - v.base..phdr - v.base + plan.phnum * ENTRY] == image[plan.phoff..plan.phoff + plan.phnum * ENTRY]
  }

  /** The stack regions install_image lays out, from the top down. */
  datatype Layout = Layout(strings: nat, path: nat, table: nat, words: nat)

  function AlignDown(x: nat, a: nat): (r: nat)
    requires a > 0
    ensures r <= x < r + a && r % a == 0
  {
    DivModUnique(a * (x / a), a, x / a, 0);
    a * (x / a)
  }

  function LayoutOf(used: nat, pathSize: nat, tableSize: nat, words: nat): Layout
    requires used <= STRING_MAX && pathSize <= PATH_MAX && tableSize <= MAX_SEGMENTS * ENTRY && words <= 31 + 2 * VECTOR_MAX
  {
    var strings := WINDOW - used;
    var path := strings - pathSize;
    var table := if tableSize == 0 then path else AlignDown(path - tableSize, 4);
    Layout(strings, path, table, AlignDown(table - 4 * words, 16))
  }

  /** Everything fits the 64 KiB stack, one below the other. */
  lemma LayoutFits(used: nat, pathSize: nat, tableSize: nat, words: nat)
    requires used <= STRING_MAX && pathSize <= PATH_MAX && tableSize <= MAX_SEGMENTS * ENTRY && words <= 31 + 2 * VECTOR_MAX
    ensures var l := LayoutOf(used, pathSize, tableSize, words);
      && WINDOW - STACK <= l.words && l.words % 16 == 0 && l.words + 4 * words <= l.table
      && l.table + tableSize <= l.path && l.path + pathSize == l.strings && l.strings + used == WINDOW
      && (tableSize == 0 ==> l.table == l.path)
  {
  }

  /** A stretch that later writes lie below is kept. */
  lemma KeptAbove(a: seq<Byte>, at: nat, bytes: seq<Byte>, p: nat, kept: seq<Byte>)
    requires p + |kept| <= |a| && a[p..p + |kept|] == kept && at + |bytes| <= p
    ensures Splice(a, at, bytes)[p..p + |kept|] == kept
  {
  }

  lemma Stands(a: seq<Byte>, at: nat, bytes: seq<Byte>)
    requires at + |bytes| <= |a|
    ensures Splice(a, at, bytes)[at..at + |bytes|] == bytes
  {
  }

  class Exec {
    const mem: Memory
    const staging: Staging

    constructor (mem: Memory)
      ensures this.mem == mem && fresh(staging) && staging.mem == mem
    {
      this.mem := mem;
      staging := new Staging(mem);
    }

    /** memset and memcpy of the segments. */
    method LoadSegments(plan: Plan, image: seq<Byte>)
      requires Installable(plan, |image|)
      modifies mem`arena
      ensures mem.arena == Loaded(plan, image, |plan.segments|)
    {
      mem.arena := Zeros(WINDOW);
      for i := 0 to |plan.segments|
        invariant mem.arena == Loaded(plan, image, i)
      {
        var s := plan.segments[i];
        assert SegmentOk(s, plan.base, |image|);
        mem.arena := Splice(mem.arena, s.address - plan.base, image[s.offset..s.offset + s.fileSize]);
      }
    }

    /** Words pushed in order at `at`. */
    method StoreWords(at: nat, ws: seq<Word>)
      requires at + 4 * |ws| <= |mem.arena|
      modifies mem`arena
      ensures mem.arena == Splice(old(mem.arena), at, WordBytes(ws))
    {
      hide Bytes32;
      ghost var before := mem.arena;
      for i := 0 to |ws|
        invariant mem.arena == Splice(before, at, WordBytes(ws[..i]))
      {
        assert ws[..i + 1][..i] == ws[..i];
        SpliceNext(before, at, WordBytes(ws[..i]), Bytes32(ws[i]));
        mem.arena := Store32(mem.arena, at + 4 * i, ws[i]);
      }
      assert ws[..|ws|] == ws;
    }

    /** Where the image ends, rounded up to a page by memory_enter. */
    method ImageEnd(plan: Plan, size: nat) returns (end: nat)
      requires Installable(plan, size)
      ensures plan.base <= end && plan.base % PAGE == 0 && AlignPage(end) + STACK_SIZE <= plan.base + WINDOW
      ensures forall i :: 0 <= i < |plan.segments| ==> plan.segments[i].address + plan.segments[i].memorySize <= end
    {
      end := plan.base;
      for i := 0 to |plan.segments|
        invariant plan.base <= end <= plan.base + WINDOW - STACK
        invariant forall j :: 0 <= j < i ==> plan.segments[j].address + plan.segments[j].memorySize <= end
      {
        assert SegmentOk(plan.segments[i], plan.base, size);
        var e := plan.segments[i].address + plan.segments[i].memorySize;
        if e > end {
          end := e;
        }
      }
      PageFits(plan.base, end);
    }

    /** The strings, the path and, when no segment holds it, the program header table. */
    method PutStrings(plan: Plan, image: seq<Byte>, path: seq<Byte>, l: Layout) returns (phdr: Word, ghost table: seq<Byte>, ghost a1: seq<Byte>, ghost a2: seq<Byte>)
      requires Installable(plan, |image|) && plan.phdr < U32 && |mem.arena| == WINDOW && staging.Sizes()
      requires l.strings + staging.used == WINDOW && l.path + |path| + 1 == l.strings
      requires if plan.phdr == 0 then l.table + plan.phnum * ENTRY <= l.path else l.table == l.path
      modifies mem`arena
      ensures a1 == Splice(old(mem.arena), l.strings, staging.strings[..staging.used]) && a2 == Splice(a1, l.path, path + [0])
      ensures l.table + |table| <= l.path && mem.arena == Splice(a2, l.table, table)
      ensures plan.phdr != 0 ==> phdr == plan.phdr && table == []
      ensures plan.phdr == 0 ==> phdr == plan.base + l.table && table == image[plan.phoff..plan.phoff + plan.phnum * ENTRY]
    {
      hide Splice;
      mem.arena := Splice(mem.arena, l.strings, staging.strings[..staging.used]);
      a1 := mem.arena;
      mem.arena := Splice(mem.arena, l.path, path + [0]);
      a2 := mem.arena;
      phdr, table := plan.phdr, [];
      if phdr == 0 {
        table := image[plan.phoff..plan.phoff + plan.phnum * ENTRY];
        mem.arena := Splice(mem.arena, l.table, image[plan.phoff..plan.phoff + plan.phnum * ENTRY]);
        phdr := plan.base + l.table;
      } else {
        SpliceNothing(mem.arena, l.table);
      }
    }

    /** The count, the pointers and the auxiliary vector. */
    method PutWords(plan: Plan, argc: nat, envc: nat, uid: Word, l: Layout, phdr: Word) returns (ghost ws: seq<Word>)
      requires plan.entry < U32 && plan.phnum < U32 && plan.base + WINDOW < U32 && staging.Sizes() && argc <= VECTOR_MAX && envc <= VECTOR_MAX
      requires l.words + 4 * (31 + argc + envc) <= |mem.arena| && l.strings + staging.used <= WINDOW && l.path <= WINDOW
      requires forall i :: 0 <= i < argc || VECTOR_MAX <= i < VECTOR_MAX + envc ==> staging.offsets[i] < staging.used
      modifies mem`arena
      ensures |ws| == 31 + argc + envc && mem.arena == Splice(old(mem.arena), l.words, WordBytes(ws))
      ensures forall i :: 0 <= i < argc || VECTOR_MAX <= i < VECTOR_MAX + envc ==> plan.base + l.strings + staging.offsets[i] < U32
      ensures ws == StackWords(argc, Pointers(staging.offsets[0..argc], plan.base + l.strings),
                               Pointers(staging.offsets[VECTOR_MAX..VECTOR_MAX + envc], plan.base + l.strings),
                               Auxv(phdr, plan.phnum, plan.entry, uid, plan.base + l.path))
    {
      hide Splice, WordBytes, StackWords, Auxv;
      var base := plan.base + l.strings;
      var argPointers := Pointers(staging.offsets[0..argc], base);
      var envPointers := Pointers(staging.offsets[VECTOR_MAX..VECTOR_MAX + envc], base);
      var auxv := Auxv(phdr, plan.phnum, plan.entry, uid, plan.base + l.path);
      StackWordsSlices(argc, argPointers, envPointers, auxv);
      var words := StackWords(argc, argPointers, envPointers, auxv);
      StoreWords(l.words, words);
      ws := words;
    }

    /** The stack of the new program. */
    method PutStack(plan: Plan, image: seq<Byte>, path: seq<Byte>, argc: nat, envc: nat, uid: Word,
                    ghost argv: seq<seq<Byte>>, ghost envp: seq<seq<Byte>>) returns (sp: nat)
      requires Installable(plan, |image|) && plan.entry < U32 && plan.phdr < U32 && |mem.arena| == WINDOW && staging.Sizes()
      requires argc == |argv| <= VECTOR_MAX && envc == |envp| <= VECTOR_MAX
      requires Listed(staging.strings[..], staging.used, staging.offsets[..], 0, argv)
      requires Listed(staging.strings[..], staging.used, staging.offsets[..], VECTOR_MAX, envp)
      requires |path| < PATH_MAX && forall i :: 0 <= i < |path| ==> path[i] != 0
      modifies mem`arena
      ensures |mem.arena| == WINDOW && forall i :: 0 <= i < WINDOW - STACK ==> mem.arena[i] == old(mem.arena)[i]
      ensures StackBuilt(View(plan.base, mem.arena), plan, image, argv, envp, path, uid, sp + plan.base)
    {
      hide Splice, StoredAt, WordBytes, Listed, LayoutOf, StackBuilt, StackWords, SegmentOk, SegmentsApart, Auxv, Pointers, AlignDown;
      ghost var a0 := mem.arena;
      var words := 31 + argc + envc;
      var l := LayoutOf(staging.used, |path| + 1, if plan.phdr == 0 then plan.phnum * ENTRY else 0, words);
      LayoutFits(staging.used, |path| + 1, if plan.phdr == 0 then plan.phnum * ENTRY else 0, words);
      var phdr, table, a1, a2 := PutStrings(plan, image, path, l);
      ghost var a3 := mem.arena;
      OffsetsBelow(staging.strings[..], staging.used, staging.offsets[..], 0, argv);
      OffsetsBelow(staging.strings[..], staging.used, staging.offsets[..], VECTOR_MAX, envp);
      ghost var ws := PutWords(plan, argc, envc, uid, l, phdr);
      Regions(a0, staging.strings[..staging.used], path + [0], table, WordBytes(ws), l, a1, a2, a3, mem.arena);
      BuiltStack(staging.strings[..], staging.used, staging.offsets[..], argv, envp, path, plan, image, uid, mem.arena, l, phdr, ws);
      sp := l.words;
    }

    /** install_image. */
    method Install(plan: Plan, image: seq<Byte>, path: seq<Byte>, argc: nat, envc: nat, uid: Word,
                   ghost argv: seq<seq<Byte>>, ghost envp: seq<seq<Byte>>) returns (stack: nat)
      requires Installable(plan, |image|) && plan.entry < U32 && plan.phdr < U32 && mem.size == WINDOW && staging.Sizes()
      requires argc == |argv| <= VECTOR_MAX && envc == |envp| <= VECTOR_MAX
      requires Listed(staging.strings[..], staging.used, staging.offsets[..], 0, argv)
      requires Listed(staging.strings[..], staging.used, staging.offsets[..], VECTOR_MAX, envp)
      requires |path| < PATH_MAX && forall i :: 0 <= i < |path| ==> path[i] != 0
      modifies mem
      ensures mem.Valid() && mem.base == plan.base && mem.heapBase == mem.heapBreak
      ensures SegmentsIn(mem.arena, plan, image, mem.heapBase)
      ensures StackBuilt(View(mem.base, mem.arena), plan, image, argv, envp, path, uid, stack)
    {
      hide Loaded, SegmentIn, StoredAt, Listed, StackBuilt, SegmentOk, SegmentsApart;
      LoadSegments(plan, image);
      ghost var a0 := mem.arena;
      var sp := PutStack(plan, image, path, argc, envc, uid, argv, envp);
      var end := ImageEnd(plan, |image|);
      mem.Enter(plan.base, end);
      SegmentsStay(a0, mem.arena, plan, image, end, mem.heapBase);
      stack := sp + plan.base;
    }

    /** The path argument of execve: a user string that fits the path buffer. */
    method ReadPath(address: nat) returns (error: int, path: seq<Byte>)
      requires mem.Valid()
      ensures error == (match UserString(View(mem.base, mem.arena), address, PATH_MAX) case Got(_) => 0 case Fault => -14 case TooBig => -36)
      ensures error == 0 ==> path == UserString(View(mem.base, mem.arena), address, PATH_MAX).value
    {
      ghost var v := View(mem.base, mem.arena);
      path := [];
      var p, i := address, 0;
      JoinStart(UserString(v, address, PATH_MAX));
      while true
        invariant 0 <= i <= PATH_MAX && |path| == i && p == address + i
        invariant Joined(UserString(v, address, PATH_MAX), path, UserString(v, p, PATH_MAX - i))
        decreases PATH_MAX - i
      {
        if i == PATH_MAX {
          return -36, path;
        }
        if !mem.UserRange(p, 1) {
          return -14, path;
        }
        var ch := mem.arena[p - mem.base];
        if ch == 0 {
          assert path + [] == path;
          return 0, path;
        }
        JoinMore(UserString(v, address, PATH_MAX), path, ch, UserString(v, p + 1, PATH_MAX - i - 1));
        path := path + [ch];
        p, i := p + 1, i + 1;
      }
    }

    /** linux_execve. `check` is what fs_exec_check says, `image` what was read, or `failed`. */
    method Execve(pathAddress: nat, argvAddress: nat, envpAddress: nat, check: int, failed: int, image: seq<Byte>, uid: Word)
      returns (r: int, entry: nat, stack: nat)
      requires mem.Valid() && mem.size == WINDOW && staging.mem == mem && staging.Sizes() && |image| < U32 && failed <= 0
      modifies mem, staging, staging.strings, staging.offsets
      ensures mem.Valid() && staging.Sizes()
      ensures r != 0 ==> mem.arena == old(mem.arena) && mem.Capture() == old(mem.Capture())
      ensures r == 0 ==> Replaced(old(View(mem.base, mem.arena)), View(mem.base, mem.arena), mem.heapBase, pathAddress, argvAddress, envpAddress, image, uid, entry, stack)
      ensures r == 0 ==> ImageStands(View(mem.base, mem.arena), mem.heapBase, image, entry)
      ensures r == 0 ==> var v := old(View(mem.base, mem.arena));
        StackStands(View(mem.base, mem.arena), image, if ArgvOf(v, argvAddress) == [] then [[]] else ArgvOf(v, argvAddress),
                    EnvpOf(v, argvAddress, envpAddress), PathOf(v, pathAddress), uid, stack)
      ensures r == ErrorOf(old(View(mem.base, mem.arena)), pathAddress, argvAddress, envpAddress, check, failed, image)
      ensures r == 0 <==> check == 0 && failed == 0 && Replaceable(old(View(mem.base, mem.arena)), pathAddress, argvAddress, envpAddress, image)
    {
      hide UserString, UserVector, Acceptable, Listed, StackBuilt, SegmentsIn, StoredAt, PlanOf, Installable, Size, TableOk, ImageStands, StackStands, Identified, AbiOk, HasEntry, HeadersOk;
      ghost var v := View(mem.base, mem.arena);
      entry, stack := 0, 0;
      var path: seq<Byte>;
      r, path := ReadPath(pathAddress);
      if r != 0 {
        return;
      }
      if check != 0 {
        return check, 0, 0;
      }
      if failed < 0 {
        return failed, 0, 0;
      }
      var plan := Validate(image);
      AcceptedAbi(image);
      if plan.None? || plan.value.legacy {
        AcceptedLegacy(image);
        return -8, 0, 0;
      }
      AcceptedLegacy(image);
      staging.used := 0;
      var argc, envc: nat;
      r, argc := staging.StageVector(argvAddress, 0);
      if r != 0 {
        return;
      }
      ghost var argv := ArgvOf(v, argvAddress);
      ghost var s1, u1, o1 := staging.strings[..], staging.used, staging.offsets[..];
      r, envc := staging.StageVector(envpAddress, VECTOR_MAX);
      if r != 0 {
        return;
      }
      ghost var envp := EnvpOf(v, argvAddress, envpAddress);
      ListedKept(s1, u1, staging.strings[..], staging.used, o1, staging.offsets[..], 0, argv);
      if argc == 0 {
        NoSize();
        ghost var s2, u2, o2 := staging.strings[..], staging.used, staging.offsets[..];
        var offset: nat;
        r, offset := staging.StageKernel([]);
        if r != 0 {
          return;
        }
        staging.offsets[0] := offset;
        argc := 1;
        ListedMore(s2, u2, staging.strings[..], staging.used, o2, offset, 0, argv, []);
        ListedKept(s2, u2, staging.strings[..], staging.used, o2, staging.offsets[..], VECTOR_MAX, envp);
      }
      assert (if argv == [] then [[]] else argv) == if argv == [] then argv + [[]] else argv;
      PathPlain(v, pathAddress);
      stack := Install(plan.value, image, path, argc, envc, uid, if argv == [] then [[]] else argv, envp);
      entry := plan.value.entry;
      ReplacedMeans(v, View(mem.base, mem.arena), mem.heapBase, pathAddress, argvAddress, envpAddress, image, uid, entry, stack);
    }
  }

  /** The caller's arguments. */
  function ArgvOf(v: View, argv: nat): seq<seq<Byte>> {
    var a := UserVector(v, argv, STRING_MAX);
    if a.Got? then a.value else []
  }

  /** The room the arguments leave for the environment. */
  function RoomAfter(list: seq<seq<Byte>>): nat {
    if Size(list) <= STRING_MAX then STRING_MAX - Size(list) else 0
  }

  function EnvpOf(v: View, argv: nat, envp: nat): seq<seq<Byte>> {
    var e := UserVector(v, envp, RoomAfter(ArgvOf(v, argv)));
    if e.Got? then e.value else []
  }

  /** Which error comes first: of the path EFAULT or ENAMETOOLONG, of the file what the system says of
      it or ENOEXEC, of the vectors EFAULT or E2BIG. */
  ghost function ErrorOf(v: View, path: nat, argv: nat, envp: nat, check: int, failed: int, image: seq<Byte>): int {
    if UserString(v, path, 128).Fault? then -14
    else if UserString(v, path, 128).TooBig? then -36
    else if check != 0 then check
    else if failed < 0 then failed
    else if !Acceptable(image) || OldAbi(image) then -8
    else if UserVector(v, argv, 8192).Fault? then -14
    else if UserVector(v, argv, 8192).TooBig? then -7
    else if UserVector(v, envp, RoomAfter(ArgvOf(v, argv))).Fault? then -14
    else if UserVector(v, envp, RoomAfter(ArgvOf(v, argv))).TooBig? then -7
    else if ArgvOf(v, argv) == [] && Size(EnvpOf(v, argv, envp)) == 8192 then -7
    else 0
  }

  function PathOf(v: View, path: nat): seq<Byte> {
    var p := UserString(v, path, PATH_MAX);
    if p.Got? then p.value else []
  }

  /** execve can succeed: the image is acceptable, not of the old ABI, and all strings can be staged. */
  ghost predicate Replaceable(v: View, path: nat, argv: nat, envp: nat, image: seq<Byte>) {
    && UserString(v, path, PATH_MAX).Got? && Acceptable(image) && !Legacy(image)
    && UserVector(v, argv, STRING_MAX).Got? && UserVector(v, envp, RoomAfter(ArgvOf(v, argv))).Got?
    && (ArgvOf(v, argv) == [] ==> Size(EnvpOf(v, argv, envp)) < STRING_MAX)
  }

  /** What a successful execve leaves: the new image, and the caller's strings on its stack;
      an empty argument list becomes one empty argument. */
  ghost predicate Replaced(v: View, w: View, heap: nat, path: nat, argv: nat, envp: nat, image: seq<Byte>, uid: Word, entry: nat, stack: nat) {
    && |image| >= HEADER && TableOk(image) && Installable(PlanOf(image), |image|)
    && w.base == PlanOf(image).base && entry == PlanOf(image).entry && SegmentsIn(w.arena, PlanOf(image), image, heap)
    && StackBuilt(w, PlanOf(image), image, if ArgvOf(v, argv) == [] then [[]] else ArgvOf(v, argv), EnvpOf(v, argv, envp), PathOf(v, path), uid, stack)
  }

  lemma AcceptedLegacy(image: seq<Byte>)
    requires |image| < U32
    ensures Acceptable(image) ==> |image| >= HEADER && TableOk(image) && PlanOf(image).legacy == Legacy(image)
    ensures Acceptable(image) ==> Installable(PlanOf(image), |image|) && PlanOf(image).entry < U32 && PlanOf(image).phdr < U32
  {
    if Acceptable(image) {
      AcceptedInstallable(image);
      TableInSegment(image, PhNum(image));
    }
  }

  lemma PathPlain(v: View, address: nat)
    ensures UserString(v, address, PATH_MAX).Got? ==> var s := UserString(v, address, PATH_MAX).value;
              |s| < PATH_MAX && forall i :: 0 <= i < |s| ==> s[i] != 0
  {
  }

  /** Every segment is in place, below the heap. */
  ghost predicate SegmentsIn(arena: seq<Byte>, plan: Plan, image: seq<Byte>, heap: nat) {
    && |arena| == WINDOW
    && (forall i :: 0 <= i < |plan.segments| ==>
         SegmentOk(plan.segments[i], plan.base, |image|) && SegmentIn(arena, plan.base, image, plan.segments[i]) &&
         plan.segments[i].address + plan.segments[i].memorySize <= heap)
    && forall i :: 0 <= i < WINDOW - STACK && (forall k :: 0 <= k < |plan.segments| ==> !Fills(plan.segments[k], plan.base, i)) ==> arena[i] == 0
  }

  lemma SegmentsStay(a0: seq<Byte>, arena: seq<Byte>, plan: Plan, image: seq<Byte>, end: nat, heap: nat)
    requires Installable(plan, |image|) && a0 == Loaded(plan, image, |plan.segments|) && |arena| == WINDOW && end <= heap
    requires forall i :: 0 <= i < WINDOW - STACK ==> arena[i] == a0[i]
    requires forall i :: 0 <= i < |plan.segments| ==> plan.segments[i].address + plan.segments[i].memorySize <= end
    ensures SegmentsIn(arena, plan, image, heap)
  {
    hide Loaded, SegmentIn, SegmentOk, SegmentsApart, Fills;
    forall i | 0 <= i < |plan.segments|
      ensures SegmentOk(plan.segments[i], plan.base, |image|) && SegmentIn(arena, plan.base, image, plan.segments[i])
    {
      LoadedSegment(plan, image, |plan.segments|, i);
      SegmentKept(a0, arena, plan.base, image, plan.segments[i]);
    }
    forall i | 0 <= i < WINDOW - STACK && (forall k :: 0 <= k < |plan.segments| ==> !Fills(plan.segments[k], plan.base, i)) ensures arena[i] == 0 {
      LoadedElse(plan, image, |plan.segments|, i);
    }
  }

  lemma SpliceNothing(a: seq<Byte>, at: nat)
    requires at <= |a|
    ensures Splice(a, at, []) == a
  {
  }

  lemma SpliceNext(a: seq<Byte>, at: nat, x: seq<Byte>, y: seq<Byte>)
    requires at + |x| + |y| <= |a|
    ensures Splice(Splice(a, at, x), at + |x|, y) == Splice(a, at, x + y)
  {
  }

  lemma OffsetsBelow(strings: seq<Byte>, used: nat, offsets: seq<nat>, at: nat, list: seq<seq<Byte>>)
    requires Listed(strings, used, offsets, at, list)
    ensures forall i :: at <= i < at + |list| ==> offsets[i] < used
  {
    forall i | at <= i < at + |list| ensures offsets[i] < used {
      assert StoredAt(strings, used, offsets[at + (i - at)], list[i - at]);
    }
  }

  /** Each region of the finished stack holds what was put there. */
  lemma Regions(a0: seq<Byte>, strings: seq<Byte>, path: seq<Byte>, table: seq<Byte>, words: seq<Byte>, l: Layout,
                a1: seq<Byte>, a2: seq<Byte>, a3: seq<Byte>, a4: seq<Byte>)
    requires |a0| == WINDOW && l.strings + |strings| == WINDOW && l.path + |path| == l.strings && l.table + |table| <= l.path
    requires l.words + |words| <= l.table && WINDOW - STACK <= l.words
    requires a1 == Splice(a0, l.strings, strings) && a2 == Splice(a1, l.path, path) && a3 == Splice(a2, l.table, table) && a4 == Splice(a3, l.words, words)
    ensures a4[l.strings..l.strings + |strings|] == strings && a4[l.path..l.path + |path|] == path
    ensures a4[l.table..l.table + |table|] == table && a4[l.words..l.words + |words|] == words
    ensures |a4| == WINDOW && forall i :: 0 <= i < WINDOW - STACK ==> a4[i] == a0[i]
  {
    Stands(a0, l.strings, strings);
    Stands(a1, l.path, path);
    Stands(a2, l.table, table);
    Stands(a3, l.words, words);
    KeptAbove(a1, l.path, path, l.strings, strings);
    KeptAbove(a2, l.table, table, l.strings, strings);
    KeptAbove(a3, l.words, words, l.strings, strings);
    KeptAbove(a2, l.table, table, l.path, path);
    KeptAbove(a3, l.words, words, l.path, path);
    KeptAbove(a3, l.words, words, l.table, table);
  }

  lemma StackWordsSlices(argc: Word, argv: seq<Word>, envp: seq<Word>, auxv: seq<Word>)
    ensures var ws := StackWords(argc, argv, envp, auxv);
      && |ws| == 3 + |argv| + |envp| + |auxv| && ws[0] == argc
      && ws[1..1 + |argv|] == argv && ws[1 + |argv|] == 0
      && ws[2 + |argv|..2 + |argv| + |envp|] == envp && ws[2 + |argv| + |envp|] == 0
      && ws[3 + |argv| + |envp|..] == auxv
  {
  }

  lemma {:induction false} WordsTail(ws: seq<Word>, k: nat)
    requires k <= |ws|
    ensures WordBytes(ws)[4 * k..] == WordBytes(ws[k..])
    decreases |ws|
  {
    hide Bytes32;
    if k == |ws| {
      assert ws[k..] == [];
    } else {
      var n := |ws| - 1;
      WordsTail(ws[..n], k);
      assert ws[k..][..n - k] == ws[..n][k..];
      assert WordBytes(ws)[4 * k..] == WordBytes(ws[..n])[4 * k..] + Bytes32(ws[n]);
    }
  }

  lemma WordsInTail(arena: seq<Byte>, at: nat, ws: seq<Word>, k: nat)
    requires WordsIn(arena, at, ws) && k <= |ws|
    ensures WordsIn(arena, at + 4 * k, ws[k..])
  {
    WordsTail(ws, k);
    SliceOfSlice(arena, at, at + 4 * |ws|, 4 * k, 4 * |ws|);
  }

  lemma PathText(arena: seq<Byte>, at: nat, path: seq<Byte>, base: nat)
    requires at + |path| + 1 <= |arena| && arena[at..at + |path| + 1] == path + [0] && forall i :: 0 <= i < |path| ==> path[i] != 0
    ensures TextAt(View(base, arena), base + at, path)
  {
    SliceOfSlice(arena, at, at + |path| + 1, 0, |path|);
    assert (path + [0])[0..|path|] == path;
    assert arena[at + |path|] == arena[at..at + |path| + 1][|path|];
  }

  /** The finished arena, read through the window, is the stack the program is promised. */
  lemma BuiltStack(strings: seq<Byte>, used: nat, offsets: seq<nat>, argv: seq<seq<Byte>>, envp: seq<seq<Byte>>, path: seq<Byte>,
                   plan: Plan, image: seq<Byte>, uid: Word, arena: seq<Byte>, l: Layout, phdr: Word, ws: seq<Word>)
    requires Installable(plan, |image|) && plan.entry < U32 && plan.phdr < U32 && |arena| == WINDOW
    requires |argv| <= VECTOR_MAX && |envp| <= VECTOR_MAX && |offsets| == 2 * VECTOR_MAX
    requires Listed(strings, used, offsets, 0, argv) && Listed(strings, used, offsets, VECTOR_MAX, envp)
    requires forall i :: 0 <= i < |argv| || VECTOR_MAX <= i < VECTOR_MAX + |envp| ==> offsets[i] < used
    requires l.strings + used == WINDOW && arena[l.strings..l.strings + used] == strings[..used]
    requires l.path + |path| + 1 <= WINDOW && arena[l.path..l.path + |path| + 1] == path + [0] && forall i :: 0 <= i < |path| ==> path[i] != 0
    requires plan.phdr != 0 ==> phdr == plan.phdr
    requires plan.phdr == 0 ==> l.table + plan.phnum * ENTRY <= WINDOW && phdr == plan.base + l.table
    requires plan.phdr == 0 ==> arena[l.table..l.table + plan.phnum * ENTRY] == image[plan.phoff..plan.phoff + plan.phnum * ENTRY]
    requires ws == StackWords(|argv|, Pointers(offsets[0..|argv|], plan.base + l.strings),
                              Pointers(offsets[VECTOR_MAX..VECTOR_MAX + |envp|], plan.base + l.strings),
                              Auxv(phdr, plan.phnum, plan.entry, uid, plan.base + l.path))
    requires WordsIn(arena, l.words, ws) && l.words % 16 == 0 && WINDOW - STACK <= l.words
    ensures StackBuilt(View(plan.base, arena), plan, image, argv, envp, path, uid, l.words + plan.base)
  {
    hide Listed, StoredAt, WordsIn, StackWords, Load32, VectorAt, TextAt, SegmentOk, SegmentsApart, Auxv;
    var v, n, m := View(plan.base, arena), |argv|, |envp|;
    var auxv := Auxv(phdr, plan.phnum, plan.entry, uid, plan.base + l.path);
    StackWordsSlices(n, Pointers(offsets[0..n], plan.base + l.strings), Pointers(offsets[VECTOR_MAX..VECTOR_MAX + m], plan.base + l.strings), auxv);
    WordIn(arena, l.words, ws, 0);
    WordIn(arena, l.words, ws, |ws| - 1);
    CopiedVector(strings, used, offsets, 0, argv, arena, l.strings, plan.base, l.words, ws, 1);
    CopiedVector(strings, used, offsets, VECTOR_MAX, envp, arena, l.strings, plan.base, l.words, ws, 2 + n);
    WordsInTail(arena, l.words, ws, 3 + n + m);
    PathText(arena, l.path, path, plan.base);
    Aligned16(l.words, plan.base);
    var stack := l.words + plan.base;
    assert VectorAt(v, stack + 4, argv);
    assert VectorAt(v, stack + 4 * (2 + |argv|), envp);
    assert TableAt(v, plan, image, phdr) && TextAt(v, plan.base + l.path, path);
    assert stack % 16 == 0 && InUser(v, stack, 0) && stack >= v.base + WINDOW - STACK;
    assert stack + 4 * (31 + |argv| + |envp|) <= v.base + |v.arena|;
    assert WordAt(v, stack) == |argv|;
    assert AuxAt(v, stack + 4 * (3 + |argv| + |envp|), plan, phdr, uid, plan.base + l.path);
  }

  /** The stack starts on a page, so rounding the image's end up does not reach it. */
  lemma PageFits(base: nat, end: nat)
    requires base % WINDOW == 0 && end <= base + WINDOW - STACK
    ensures base % PAGE == 0 && AlignPage(end) + STACK_SIZE <= base + WINDOW
  {
    var q, top := base / WINDOW, base + WINDOW - STACK;
    assert base == PAGE * (WINDOW / PAGE * q);
    assert top == PAGE * (WINDOW / PAGE * q + (WINDOW - STACK) / PAGE);
    DivModUnique(top, PAGE, WINDOW / PAGE * q + (WINDOW - STACK) / PAGE, 0);
    DivModUnique(base, PAGE, WINDOW / PAGE * q, 0);
  }

  lemma Aligned16(a: nat, base: nat)
    requires a % 16 == 0 && base % WINDOW == 0
    ensures (a + base) % 16 == 0
  {
    var q := base / WINDOW;
    assert base == 16 * (WINDOW / 16 * q);
  }

  /** The new program reads back exactly the arguments and environment it was given. */
  lemma ExecRoundTrip(v: View, plan: Plan, image: seq<Byte>, argv: seq<seq<Byte>>, envp: seq<seq<Byte>>, path: seq<Byte>, uid: Word, stack: nat)
    requires Installable(plan, |image|) && StackBuilt(v, plan, image, argv, envp, path, uid, stack)
    requires |argv| <= VECTOR_MAX && |envp| <= VECTOR_MAX && v.base > 0
    ensures WordAt(v, stack) == |argv|
    ensures UserVector(v, stack + 4, Size(argv)) == Got(argv)
    ensures UserVector(v, stack + 4 * (2 + |argv|), Size(envp)) == Got(envp)
  {
    hide VectorAt, Size, UserStrings, TextAt, TableAt, AuxAt, Installable;
    assert argv[..0] == [] && envp[..0] == [];
    NoSize();
    VectorReads(v, stack + 4, argv, 0, Size(argv));
    VectorReads(v, stack + 4 * (2 + |argv|), envp, 0, Size(envp));
  }

  lemma NoSize()
    ensures Size([]) == 0
  {
  }

  // ------------------------------------------------------------ the new program, from the bytes of its file

  /** What the header at `h` asks for is in memory: the file's bytes, then zeros, below the heap. */
  ghost predicate HeaderStands(w: View, heap: nat, image: seq<Byte>, h: nat) {
    LoadAt(image, h) ==>
      var offset, address, fileSize, memorySize := Load32(image, h + 4), Load32(image, h + 8), Load32(image, h + 16), Load32(image, h + 20);
      && fileSize <= memorySize && offset + fileSize <= |image|
      && w.base <= address && address + memorySize <= heap && address + memorySize <= w.base + |w.arena|
      && w.arena[address - w.base..address - w.base + fileSize] == image[offset..offset + fileSize]
      && forall j :: address - w.base + fileSize <= j < address - w.base + memorySize ==> w.arena[j] == 0
  }

  /** The header at `h` puts a byte of the file at `address`. */
  predicate Covers(image: seq<Byte>, h: nat, address: nat) {
    LoadAt(image, h) && Load32(image, h + 8) <= address < Load32(image, h + 8) + Load32(image, h + 16)
  }

  /** The whole image is in memory, in the one window that suits it, and nothing else is below the stack;
      the entry is that of the file. */
  ghost predicate ImageStands(w: View, heap: nat, image: seq<Byte>, entry: nat) {
    && |image| >= 52 && entry == Load32(image, 24) && |w.arena| == 0x40_0000 && Suits(image, w.base)
    && (forall i :: 0 <= i < Load16(image, 44) ==> HeaderStands(w, heap, image, HeaderAt(image, i)))
    && forall a :: 0 <= a < 0x3f_0000 && (forall i :: 0 <= i < Load16(image, 44) ==> !Covers(image, HeaderAt(image, i), w.base + a)) ==> w.arena[a] == 0
  }

  /** The words of the auxiliary vector: AT_PHDR, AT_PHENT, AT_PHNUM, AT_PAGESZ, AT_BASE, AT_FLAGS,
      AT_ENTRY, the four ids, AT_SECURE, AT_EXECFN and the end, as the i386 System V ABI numbers them. */
  ghost predicate AuxStands(w: View, address: int, image: seq<Byte>, phdr: Word, uid: Word, execfn: Word) {
    && |image| >= 52
    && WordsAre(w, address, [3, phdr, 4, 32, 5, Load16(image, 44), 6, 4096, 7, 0, 8, 0, 9, Load32(image, 24),
                             11, uid, 12, uid, 13, uid, 14, uid, 23, 0, 31, execfn, 0, 0])
  }

  /** These words stand at `address`. */
  ghost predicate WordsAre(w: View, address: int, words: seq<nat>) {
    InUser(w, address, 4 * |words|) && forall k :: 0 <= k < |words| ==> WordAt(w, address + 4 * k) == words[k]
  }

  /** The program headers of the file stand at `phdr`. */
  ghost predicate HeadersStand(w: View, image: seq<Byte>, phdr: Word) {
    && |image| >= 52 && InUser(w, phdr, 32 * Load16(image, 44)) && Load32(image, 28) + 32 * Load16(image, 44) <= |image|
    && w.arena[phdr - w.base..phdr - w.base + 32 * Load16(image, 44)] == image[Load32(image, 28)..Load32(image, 28) + 32 * Load16(image, 44)]
  }

  /** The stack as a program expects it: the count and the vectors of its arguments and of its
      environment, and the auxiliary vector. */
  ghost predicate StackStands(w: View, image: seq<Byte>, argv: seq<seq<Byte>>, envp: seq<seq<Byte>>, path: seq<Byte>, uid: Word, stack: nat) {
    && stack % 16 == 0 && InUser(w, stack, 4) && WordAt(w, stack) == |argv|
    && VectorAt(w, stack + 4, argv) && VectorAt(w, stack + 4 * (2 + |argv|), envp)
    && exists phdr: Word, execfn: Word :: AuxStands(w, stack + 4 * (3 + |argv| + |envp|), image, phdr, uid, execfn)
         && TextAt(w, execfn, path) && HeadersStand(w, image, phdr)
  }

  lemma AuxReads(w: View, address: int, image: seq<Byte>, phdr: Word, uid: Word, execfn: Word)
    requires |image| >= HEADER && TableOk(image) && AuxAt(w, address, PlanOf(image), phdr, uid, execfn)
    ensures AuxStands(w, address, image, phdr, uid, execfn)
  {
    hide Load32, Load16, WordBytes, TableOk, BaseOf, Legacy, Segments, TableAddress;
    var ws := Auxv(phdr, PlanOf(image).phnum, PlanOf(image).entry, uid, execfn);
    forall i | 0 <= i < 28 ensures InUser(w, address + 4 * i, 4) && WordAt(w, address + 4 * i) == ws[i] {
      WordIn(w.arena, address - w.base, ws, i);
    }
  }

  lemma HeadersThere(w: View, heap: nat, image: seq<Byte>, phdr: Word)
    requires |image| < U32 && Acceptable(image) && Installable(PlanOf(image), |image|) && SegmentsIn(w.arena, PlanOf(image), image, heap)
    requires w.base == PlanOf(image).base && TableAt(w, PlanOf(image), image, phdr)
    ensures HeadersStand(w, image, phdr)
  {
    hide Load32, Load16, Ph, Loads, HeadersOk, HasEntry, Identified, AbiOk, WindowOk, BaseOf, Installable, Segments, TableAddress, SegmentsApart;
    var plan, n := PlanOf(image), PhNum(image);
    if plan.phdr != 0 {
      TableFrom(image, n);
      var i :| 0 <= i < n && TableHeldBy(image, i, plan.phdr);
      var k := SegmentAt(image, n, i);
      var s := plan.segments[k];
      assert SegmentOk(s, plan.base, |image|) && SegmentIn(w.arena, plan.base, image, s);
      var at, skip := s.address - plan.base, PhOff(image) - s.offset;
      PartThere(w.arena, at, image, s.offset, s.fileSize, skip, n * ENTRY);
    }
  }

  /** Part of a stretch that was copied. */
  lemma PartThere(arena: seq<Byte>, at: nat, image: seq<Byte>, offset: nat, length: nat, skip: nat, part: nat)
    requires at + length <= |arena| && offset + length <= |image| && skip + part <= length
    requires arena[at..at + length] == image[offset..offset + length]
    ensures arena[at + skip..at + skip + part] == image[offset + skip..offset + skip + part]
  {
    SliceOfSlice(arena, at, at + length, skip, skip + part);
    SliceOfSlice(image, offset, offset + length, skip, skip + part);
  }

  /** What a successful execve leaves, without the load plan. */
  lemma ReplacedMeans(v: View, w: View, heap: nat, path: nat, argv: nat, envp: nat, image: seq<Byte>, uid: Word, entry: nat, stack: nat)
    requires |image| < U32 && Acceptable(image) && Replaced(v, w, heap, path, argv, envp, image, uid, entry, stack)
    ensures ImageStands(w, heap, image, entry)
    ensures StackStands(w, image, if ArgvOf(v, argv) == [] then [[]] else ArgvOf(v, argv), EnvpOf(v, argv, envp), PathOf(v, path), uid, stack)
  {
    hide Load32, Load16, Acceptable, StackBuilt, Ph, Suits, BaseOf, Segments, TableAddress, SegmentIn, Installable, AuxAt, AuxStands, TableAt, HeadersStand, Covers, UserVector, UserString, TableOk, SegmentsApart, VectorAt, TextAt, Loads;
    AcceptableMeans(image);
    var plan := PlanOf(image);
    forall i | 0 <= i < Load16(image, 44) ensures HeaderStands(w, heap, image, HeaderAt(image, i)) {
      SegmentStands(w, heap, image, i);
    }
    forall a | 0 <= a < 0x3f_0000 && (forall i :: 0 <= i < Load16(image, 44) ==> !Covers(image, HeaderAt(image, i), w.base + a)) ensures w.arena[a] == 0 {
      NothingElse(w, heap, image, a);
    }
    StackMeans(w, heap, image, if ArgvOf(v, argv) == [] then [[]] else ArgvOf(v, argv), EnvpOf(v, argv, envp), PathOf(v, path), uid, stack);
  }

  lemma NothingElse(w: View, heap: nat, image: seq<Byte>, a: nat)
    requires |image| >= HEADER && TableOk(image) && w.base == PlanOf(image).base && a < 0x3f_0000
    requires SegmentsIn(w.arena, PlanOf(image), image, heap)
    requires forall i :: 0 <= i < Load16(image, 44) ==> !Covers(image, HeaderAt(image, i), w.base + a)
    ensures w.arena[a] == 0
  {
    hide Load32, Load16, Ph, BaseOf, Segments, TableAddress, TableOk, SegmentsApart, Loads, LoadAt, SegmentIn, SegmentOk;
    var plan := PlanOf(image);
    forall k | 0 <= k < |plan.segments| ensures !Fills(plan.segments[k], plan.base, a) {
      var i := SegmentFrom(image, PhNum(image), k);
      Fields(image, i);
      assert !Covers(image, HeaderAt(image, i), w.base + a);
    }
  }

  lemma SegmentStands(w: View, heap: nat, image: seq<Byte>, i: nat)
    requires |image| >= HEADER && TableOk(image) && i < PhNum(image) && w.base == PlanOf(image).base
    requires SegmentsIn(w.arena, PlanOf(image), image, heap)
    ensures HeaderStands(w, heap, image, HeaderAt(image, i))
  {
    hide Load32, Load16, Ph, BaseOf, Segments, TableAddress, TableOk, SegmentsApart, Loads, LoadAt;
    Fields(image, i);
    if Loads(Ph(image, i)) {
      var k := SegmentAt(image, PhNum(image), i);
      assert SegmentOk(PlanOf(image).segments[k], PlanOf(image).base, |image|);
    }
  }

  lemma StackMeans(w: View, heap: nat, image: seq<Byte>, argv: seq<seq<Byte>>, envp: seq<seq<Byte>>, path: seq<Byte>, uid: Word, stack: nat)
    requires |image| < U32 && Acceptable(image) && Installable(PlanOf(image), |image|) && w.base == PlanOf(image).base
    requires SegmentsIn(w.arena, PlanOf(image), image, heap) && StackBuilt(w, PlanOf(image), image, argv, envp, path, uid, stack)
    ensures StackStands(w, image, argv, envp, path, uid, stack)
  {
    hide Load32, Load16, Ph, Identified, AbiOk, WindowOk, HeadersOk, HasEntry, PlanOf, SegmentsIn, TableOk, AuxAt, AuxStands, TableAt, HeadersStand, Installable, VectorAt, TextAt;
    var plan, address := PlanOf(image), stack + 4 * (3 + |argv| + |envp|);
    var phdr: Word, execfn: Word :| AuxAt(w, address, plan, phdr, uid, execfn) && TextAt(w, execfn, path) && TableAt(w, plan, image, phdr);
    AuxReads(w, address, image, phdr, uid, execfn);
    HeadersThere(w, heap, image, phdr);
  }

  /** These are the path, the arguments and the environment that a caller passes: at most 127 bytes
      of path, 64 strings each, and 8192 bytes of strings with their NULs in all, one of which an
      empty list of arguments takes for the one that replaces it. */
  ghost predicate Passed(v: View, path: nat, argv: nat, envp: nat, name: seq<Byte>, arguments: seq<seq<Byte>>, environment: seq<seq<Byte>>) {
    && TextAt(v, path, name) && |name| <= 127 && VectorIn(v, argv, arguments) && VectorIn(v, envp, environment)
    && Size(arguments) + Size(environment) + (if arguments == [] then 1 else 0) <= 8192
  }

  /** When execve can succeed, without its reader of strings, and what it then passes on. */
  lemma ReplaceableMeans(v: View, path: nat, argv: nat, envp: nat, image: seq<Byte>)
    ensures Replaceable(v, path, argv, envp, image) <==>
      && StaticI386(image) && (exists base :: Suits(image, base)) && !OldAbi(image)
      && exists name, arguments, environment :: Passed(v, path, argv, envp, name, arguments, environment)
    ensures forall name, arguments, environment :: Passed(v, path, argv, envp, name, arguments, environment) ==>
      PathOf(v, path) == name && ArgvOf(v, argv) == arguments && EnvpOf(v, argv, envp) == environment
  {
    hide Acceptable, Suits, StaticI386, UserString, UserVector, TextAt, VectorIn, Size;
    AcceptableMeans(image);
    LegacyIs(image);
    Readable(v, path, 128);
    Readable(v, argv, 8192);
    Readable(v, envp, RoomAfter(ArgvOf(v, argv)));
    NoSize();
    forall name, arguments, environment | Passed(v, path, argv, envp, name, arguments, environment)
      ensures PathOf(v, path) == name && ArgvOf(v, argv) == arguments && EnvpOf(v, argv, envp) == environment
      ensures UserString(v, path, PATH_MAX).Got? && UserVector(v, argv, STRING_MAX).Got? && UserVector(v, envp, RoomAfter(ArgvOf(v, argv))).Got?
    {
    }
    if UserString(v, path, PATH_MAX).Got? && UserVector(v, argv, STRING_MAX).Got? && UserVector(v, envp, RoomAfter(ArgvOf(v, argv))).Got?
       && (ArgvOf(v, argv) == [] ==> Size(EnvpOf(v, argv, envp)) < STRING_MAX) {
      assert Passed(v, path, argv, envp, PathOf(v, path), ArgvOf(v, argv), EnvpOf(v, argv, envp));
    }
  }

  lemma AcceptedAbi(image: seq<Byte>)
    ensures Acceptable(image) ==> |image| >= HEADER && (Legacy(image) <==> OldAbi(image))
  {
  }

  lemma LegacyIs(image: seq<Byte>)
    ensures StaticI386(image) ==> |image| >= HEADER && (Legacy(image) <==> OldAbi(image))
    ensures Acceptable(image) ==> |image| >= HEADER
  {
  }
}
