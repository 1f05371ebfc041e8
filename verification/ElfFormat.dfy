/** elf_format.c: which ELF32 images are accepted, and where their segments go.

    Field meanings are those of the System V gABI, chapters 4 and 5. Sums and differences of
    unsigned ints are reduced modulo 2^32 as in C; acceptance shows that none of them wraps. */
module ElfFormat {
  import opened Arithmetic
  import opened Bytes

  const MAX_SEGMENTS := 32
  const LOAD_MIN := 0x0100_0000
  const STACK_TOP := 0x0140_0000
  const STACK := 0x1_0000
  const WINDOW := STACK_TOP - LOAD_MIN
  const HEADER := 52
  const ENTRY := 32
  const APP_ABI := 9

  const PT_NULL := 0
  const PT_LOAD := 1
  const PT_DYNAMIC := 2
  const PT_INTERP := 3
  const PT_NOTE := 4
  const PT_PHDR := 6
  const PT_TLS := 7
  const PT_GNU_STACK := 0x6474_e551
  const PT_GNU_RELRO := 0x6474_e552
  const PT_GNU_PROPERTY := 0x6474_e553

  /** Unsigned 32-bit arithmetic. */
  function U(x: int): Word {
    x % U32
  }

  datatype ProgramHeader = ProgramHeader(kind: Word, offset: Word, vaddr: Word, filesz: Word, memsz: Word, flags: Word, align: Word)

  datatype Segment = Segment(offset: nat, address: nat, fileSize: nat, memorySize: nat)

  datatype Plan = Plan(entry: nat, base: nat, stackTop: nat, phoff: nat, phnum: nat, phdr: nat, legacy: bool, segments: seq<Segment>)

  datatype Option<T> = None | Some(value: T)

  function ReadHeader(data: seq<Byte>, at: nat): ProgramHeader
    requires at + ENTRY <= |data|
  {
    ProgramHeader(Load32(data, at), Load32(data, at + 4), Load32(data, at + 8), Load32(data, at + 16), Load32(data, at + 20),
                  Load32(data, at + 24), Load32(data, at + 28))
  }

  // ------------------------------------------------------------ what is acceptable

  function PhOff(data: seq<Byte>): Word
    requires |data| >= HEADER
  {
    Load32(data, 28)
  }

  function PhNum(data: seq<Byte>): nat
    requires |data| >= HEADER
  {
    Load16(data, 44)
  }

  function EntryOf(data: seq<Byte>): Word
    requires |data| >= HEADER
  {
    Load32(data, 24)
  }

  /** A static little-endian i386 executable. */
  predicate Identified(data: seq<Byte>)
    requires |data| >= HEADER
  {
    data[0] == 0x7f && data[1] == 69 && data[2] == 76 && data[3] == 70 && data[4] == 1 && data[5] == 1 && data[6] == 1 &&
    Load16(data, 16) == 2 && Load16(data, 18) == 3 && Load32(data, 20) == 1 && Load16(data, 40) == HEADER && Load32(data, 36) == 0
  }

  /** The program header table lies in the file. */
  predicate TableOk(data: seq<Byte>)
    requires |data| >= HEADER
  {
    0 < PhNum(data) <= MAX_SEGMENTS && Load16(data, 42) == ENTRY && PhOff(data) + PhNum(data) * ENTRY <= |data|
  }

  predicate Legacy(data: seq<Byte>)
    requires |data| >= HEADER
  {
    data[7] == 255 && (data[8] == APP_ABI || data[8] == 8 || data[8] == 7)
  }

  predicate AbiOk(data: seq<Byte>)
    requires |data| >= HEADER
  {
    Legacy(data) || ((data[7] == 0 || data[7] == 3) && data[8] == 0)
  }

  function Ph(data: seq<Byte>, i: nat): ProgramHeader
    requires |data| >= HEADER && TableOk(data) && i < PhNum(data)
  {
    ReadHeader(data, PhOff(data) + i * ENTRY)
  }

  predicate Loads(p: ProgramHeader) {
    p.kind == PT_LOAD && p.memsz > 0
  }

  /** The least address of a segment, among the first `n` headers. */
  function Lowest(data: seq<Byte>, n: nat): Word
    requires |data| >= HEADER && TableOk(data) && n <= PhNum(data)
  {
    if n == 0 then 0xffff_ffff
    else if Loads(Ph(data, n - 1)) && Ph(data, n - 1).vaddr < Lowest(data, n - 1) then Ph(data, n - 1).vaddr
    else Lowest(data, n - 1)
  }

  function BaseOf(data: seq<Byte>): nat
    requires |data| >= HEADER && TableOk(data)
  {
    if Legacy(data) then LOAD_MIN else Lowest(data, PhNum(data)) / WINDOW * WINDOW
  }

  predicate WindowOk(base: nat) {
    base == LOAD_MIN || 0x0200_0000 <= base <= 0xbfc0_0000
  }

  /** A power of two, and the segment as far into such a page in memory as in the file. */
  predicate AlignOk(p: ProgramHeader) {
    p.align > 1 ==> PowerOfTwo(p.align) && p.vaddr % p.align == p.offset % p.align
  }

  /** The test as elf_validate makes it. */
  predicate Misaligned(p: ProgramHeader) {
    p.align > 1 && (BitAnd(p.align, p.align - 1) != 0 || BitAnd(p.vaddr, p.align - 1) != BitAnd(p.offset, p.align - 1))
  }

  lemma AlignmentTest(p: ProgramHeader)
    ensures Misaligned(p) <==> !AlignOk(p)
  {
    hide BitAnd, PowerOfTwo;
    if p.align > 1 {
      OneBitMask(p.align);
      if PowerOfTwo(p.align) {
        MaskIsRemainder(p.vaddr, p.align);
        MaskIsRemainder(p.offset, p.align);
      }
    }
  }

  /** A header is of a kind that needs no dynamic linking, and a load's bytes are in the file. */
  predicate HeaderOk(p: ProgramHeader, size: nat) {
    if p.kind == PT_LOAD then p.filesz <= p.memsz && p.offset + p.filesz <= size && AlignOk(p)
    else p.kind == PT_NULL || p.kind == PT_NOTE || p.kind == PT_PHDR || p.kind == PT_GNU_STACK || p.kind == PT_GNU_RELRO || p.kind == PT_GNU_PROPERTY
  }

  /** Inside the window, below the stack. */
  predicate InWindow(p: ProgramHeader, base: nat) {
    base <= p.vaddr && p.vaddr + p.memsz <= base + WINDOW - STACK
  }

  predicate Apart(p: ProgramHeader, q: ProgramHeader) {
    p.vaddr + p.memsz <= q.vaddr || q.vaddr + q.memsz <= p.vaddr
  }

  predicate HoldsEntry(p: ProgramHeader, entry: Word) {
    Loads(p) && p.flags % 2 == 1 && p.vaddr <= entry < p.vaddr + p.filesz
  }

  /** The first `n` program headers may be loaded at `base`. */
  predicate HeadersOk(data: seq<Byte>, base: nat, n: nat)
    requires |data| >= HEADER && TableOk(data) && n <= PhNum(data)
  {
    && (forall i :: 0 <= i < n ==> HeaderOk(Ph(data, i), |data|) && (Loads(Ph(data, i)) ==> InWindow(Ph(data, i), base)))
    && (forall i, j :: 0 <= i < j < n && Loads(Ph(data, i)) && Loads(Ph(data, j)) ==> Apart(Ph(data, i), Ph(data, j)))
  }

  predicate HasEntry(data: seq<Byte>, n: nat)
    requires |data| >= HEADER && TableOk(data) && n <= PhNum(data)
  {
    exists i :: 0 <= i < n && HoldsEntry(Ph(data, i), EntryOf(data))
  }

  /** The images elf_validate accepts. */
  predicate Acceptable(data: seq<Byte>) {
    && |data| >= HEADER && Identified(data) && TableOk(data) && AbiOk(data)
    && WindowOk(BaseOf(data)) && HeadersOk(data, BaseOf(data), PhNum(data)) && HasEntry(data, PhNum(data))
  }

  function SegmentOf(p: ProgramHeader): Segment {
    Segment(p.offset, p.vaddr, p.filesz, p.memsz)
  }

  /** The segments of the first `n` headers, in order. */
  function Segments(data: seq<Byte>, n: nat): seq<Segment>
    requires |data| >= HEADER && TableOk(data) && n <= PhNum(data)
  {
    if n == 0 then []
    else Segments(data, n - 1) + if Loads(Ph(data, n - 1)) then [SegmentOf(Ph(data, n - 1))] else []
  }

  /** The header table is inside the file part of a segment. */
  predicate HoldsTable(p: ProgramHeader, phoff: nat, size: nat) {
    Loads(p) && p.offset <= phoff && phoff + size <= p.offset + p.filesz
  }

  /** Where the table is in memory: in the last segment that holds it, or nowhere (0). */
  function TableAddress(data: seq<Byte>, n: nat): nat
    requires |data| >= HEADER && TableOk(data) && n <= PhNum(data)
  {
    if n == 0 then 0
    else
      var p := Ph(data, n - 1);
      if HoldsTable(p, PhOff(data), PhNum(data) * ENTRY) then p.vaddr + (PhOff(data) - p.offset) else TableAddress(data, n - 1)
  }

  function PlanOf(data: seq<Byte>): Plan
    requires |data| >= HEADER && TableOk(data)
  {
    Plan(EntryOf(data), BaseOf(data), BaseOf(data) + WINDOW, PhOff(data), PhNum(data), TableAddress(data, PhNum(data)),
         Legacy(data), Segments(data, PhNum(data)))
  }

  // ------------------------------------------------------------ what acceptance gives

  /** A plan that can be installed: segments in the window, below the stack, apart, with their
      bytes in the file. */
  predicate Installable(plan: Plan, size: nat) {
    && plan.base % WINDOW == 0 && LOAD_MIN <= plan.base <= 0xbfc0_0000 && plan.stackTop == plan.base + WINDOW < U32
    && |plan.segments| <= MAX_SEGMENTS && plan.phoff + plan.phnum * ENTRY <= size && plan.phnum <= MAX_SEGMENTS
    && (forall i :: 0 <= i < |plan.segments| ==> SegmentOk(plan.segments[i], plan.base, size))
    && (forall i, j :: 0 <= i < j < |plan.segments| ==> SegmentsApart(plan.segments[i], plan.segments[j]))
  }

  predicate SegmentOk(s: Segment, base: nat, size: nat) {
    s.fileSize <= s.memorySize && 0 < s.memorySize && s.offset + s.fileSize <= size &&
    base <= s.address && s.address + s.memorySize <= base + WINDOW - STACK
  }

  predicate SegmentsApart(s: Segment, t: Segment) {
    s.address + s.memorySize <= t.address || t.address + t.memorySize <= s.address
  }

  /** Every segment is that of a load among the headers before `n`. */
  lemma {:induction false} SegmentFrom(data: seq<Byte>, n: nat, k: nat) returns (i: nat)
    requires |data| >= HEADER && TableOk(data) && n <= PhNum(data) && k < |Segments(data, n)|
    ensures i < n && Loads(Ph(data, i)) && Segments(data, n)[k] == SegmentOf(Ph(data, i))
    ensures |Segments(data, i)| == k
  {
    hide Ph;
    if k < |Segments(data, n - 1)| {
      i := SegmentFrom(data, n - 1, k);
    } else {
      i := n - 1;
    }
  }

  lemma {:induction false} SegmentsGrow(data: seq<Byte>, m: nat, n: nat)
    requires |data| >= HEADER && TableOk(data) && m <= n <= PhNum(data)
    ensures |Segments(data, m)| <= |Segments(data, n)| && |Segments(data, n)| <= n
    decreases n
  {
    hide Ph;
    if m < n {
      SegmentsGrow(data, m, n - 1);
    } else if n > 0 {
      SegmentsGrow(data, n - 1, n - 1);
    }
  }

  /** An accepted image can be installed, and its entry is in the file part of an executable segment. */
  lemma AcceptedInstallable(data: seq<Byte>)
    requires Acceptable(data) && |data| < U32
    ensures Installable(PlanOf(data), |data|)
    ensures var plan := PlanOf(data);
      exists k :: 0 <= k < |plan.segments| && plan.segments[k].address <= plan.entry < plan.segments[k].address + plan.segments[k].fileSize
  {
    var n, plan := PhNum(data), PlanOf(data);
    SegmentsGrow(data, 0, n);
    BaseAligned(data);
    forall k | 0 <= k < |plan.segments| ensures SegmentOk(plan.segments[k], plan.base, |data|) {
      var i := SegmentFrom(data, n, k);
      assert HeaderOk(Ph(data, i), |data|);
    }
    forall k, l | 0 <= k < l < |plan.segments| ensures SegmentsApart(plan.segments[k], plan.segments[l]) {
      var i := SegmentFrom(data, n, k);
      var j := SegmentFrom(data, n, l);
      assert i < j by {
        if j <= i {
          SegmentsGrow(data, j, i);
        }
      }
      assert Apart(Ph(data, i), Ph(data, j));
    }
    var e :| 0 <= e < n && HoldsEntry(Ph(data, e), EntryOf(data));
    var k := SegmentAt(data, n, e);
  }

  /** Addresses of an accepted image are 32-bit words. */
  lemma {:induction false} TableInSegment(data: seq<Byte>, n: nat)
    requires |data| >= HEADER && TableOk(data) && n <= PhNum(data) && HeadersOk(data, BaseOf(data), PhNum(data)) && WindowOk(BaseOf(data))
    ensures TableAddress(data, n) <= BaseOf(data) + WINDOW < U32
  {
    hide Ph, HeaderOk, BaseOf;
    if n > 0 {
      TableInSegment(data, n - 1);
      if HoldsTable(Ph(data, n - 1), PhOff(data), PhNum(data) * ENTRY) {
        HeaderFits(data, n - 1);
      }
    }
  }

  lemma HeaderFits(data: seq<Byte>, i: nat)
    requires |data| >= HEADER && TableOk(data) && i < PhNum(data) && HeadersOk(data, BaseOf(data), PhNum(data)) && Loads(Ph(data, i))
    ensures Ph(data, i).filesz <= Ph(data, i).memsz && InWindow(Ph(data, i), BaseOf(data))
  {
    hide Ph;
    assert HeaderOk(Ph(data, i), |data|);
  }

  lemma {:induction false} SegmentAt(data: seq<Byte>, n: nat, i: nat) returns (k: nat)
    requires |data| >= HEADER && TableOk(data) && i < n <= PhNum(data) && Loads(Ph(data, i))
    ensures k < |Segments(data, n)| && Segments(data, n)[k] == SegmentOf(Ph(data, i))
    decreases n
  {
    hide Ph;
    if i < n - 1 {
      k := SegmentAt(data, n - 1, i);
    } else {
      k := |Segments(data, n - 1)|;
    }
  }

  lemma BaseAligned(data: seq<Byte>)
    requires |data| >= HEADER && TableOk(data)
    ensures BaseOf(data) % WINDOW == 0
  {
  }

  // ------------------------------------------------------------ elf_validate

  /** The checks on the file header. */
  method CheckHeader(data: seq<Byte>) returns (ok: bool)
    requires |data| < U32
    ensures ok <==> |data| >= HEADER && Identified(data) && TableOk(data) && AbiOk(data)
  {
    var size := |data|;
    if size < HEADER {
      return false;
    }
    if data[0] != 0x7f || data[1] != 69 || data[2] != 76 || data[3] != 70 {
      return false;
    }
    if data[4] != 1 || data[5] != 1 {
      return false;
    }
    if Load16(data, 16) == 3 {
      return false;
    }
    if Load16(data, 16) != 2 || Load16(data, 18) != 3 || data[6] != 1 || Load32(data, 20) != 1 || Load16(data, 40) != HEADER || Load32(data, 36) != 0 {
      return false;
    }
    var phoff, phnum := Load32(data, 28), Load16(data, 44);
    if phnum == 0 || phnum > MAX_SEGMENTS || Load16(data, 42) != ENTRY || phoff > size || phnum > U(size - phoff) / ENTRY {
      return false;
    }
    if data[7] == 255 && (data[8] == APP_ABI || data[8] == 8 || data[8] == 7) {
      return true;
    }
    return !((data[7] != 0 && data[7] != 3) || data[8] != 0);
  }

  /** The first loop: the window's base. */
  method FindBase(data: seq<Byte>) returns (base: Word)
    requires |data| < U32 && |data| >= HEADER && TableOk(data)
    ensures base == BaseOf(data)
  {
    hide ReadHeader;
    var lowest: Word := 0xffff_ffff;
    var phnum := PhNum(data);
    for i := 0 to phnum
      invariant lowest == Lowest(data, i)
    {
      var p := ReadHeader(data, PhOff(data) + i * ENTRY);
      if p.kind == PT_LOAD && p.memsz != 0 && p.vaddr < lowest {
        lowest := p.vaddr;
      }
    }
    base := if Legacy(data) then LOAD_MIN else lowest / WINDOW * WINDOW;
  }

  /** The checks on one load, against the segments already placed. */
  method CheckLoad(p: ProgramHeader, base: Word, loadEnd: Word, segments: seq<Segment>) returns (ok: bool)
    requires base + WINDOW <= U32 && loadEnd == base + WINDOW - STACK && Loads(p)
    requires forall k :: 0 <= k < |segments| ==> segments[k].address + segments[k].memorySize <= loadEnd
    ensures ok <==> InWindow(p, base) && forall k :: 0 <= k < |segments| ==> SegmentsApart(SegmentOf(p), segments[k])
  {
    if p.vaddr < base || p.vaddr >= loadEnd || p.memsz > U(loadEnd - p.vaddr) {
      return false;
    }
    for j := 0 to |segments|
      invariant forall k :: 0 <= k < j ==> SegmentsApart(SegmentOf(p), segments[k])
    {
      var s := segments[j];
      if p.vaddr < U(s.address + s.memorySize) && s.address < U(p.vaddr + p.memsz) {
        return false;
      }
    }
    return true;
  }

  /** One turn of the second loop. */
  method PlaceHeader(data: seq<Byte>, base: Word, i: nat, segments: seq<Segment>, phdr: nat, executable: bool)
    returns (ok: bool, segments1: seq<Segment>, phdr1: nat, executable1: bool)
    requires |data| < U32 && |data| >= HEADER && TableOk(data) && i < PhNum(data) && base + WINDOW < U32 && HeadersOk(data, base, i)
    requires segments == Segments(data, i) && phdr == TableAddress(data, i) && (executable <==> HasEntry(data, i))
    ensures ok <==> HeadersOk(data, base, i + 1)
    ensures ok ==> segments1 == Segments(data, i + 1) && phdr1 == TableAddress(data, i + 1) && (executable1 <==> HasEntry(data, i + 1))
  {
    hide ReadHeader, Identified, AbiOk, Segments, TableAddress, HeadersOk, HasEntry, Ph, PowerOfTwo, BitAnd, Misaligned, AlignOk, Apart, SegmentsApart, PhOff, PhNum, EntryOf, U;
    segments1, phdr1, executable1 := segments, phdr, executable;
    var entry, phoff, phnum := EntryOf(data), PhOff(data), PhNum(data);
    var p := ReadHeader(data, phoff + i * ENTRY);
    PhIs(data, i);
    SegmentsNext(data, i);
    HeadersNext(data, base, i);
    EntryNext(data, i);
    if p.kind == PT_DYNAMIC || p.kind == PT_INTERP || p.kind == PT_TLS {
      return false, segments, phdr, executable;
    }
    if p.kind != PT_LOAD {
      ok := !(p.kind != PT_NULL && p.kind != PT_NOTE && p.kind != PT_PHDR && p.kind != PT_GNU_STACK && p.kind != PT_GNU_RELRO && p.kind != PT_GNU_PROPERTY);
      return;
    }
    NoWrap(|data|, p.offset);
    if p.filesz > p.memsz || p.offset > |data| || p.filesz > U(|data| - p.offset) {
      return false, segments, phdr, executable;
    }
    AlignmentTest(p);
    if Misaligned(p) {
      return false, segments, phdr, executable;
    }
    if p.memsz == 0 {
      return true, segments, phdr, executable;
    }
    PlacedBelow(data, base, i);
    ok := CheckLoad(p, base, base + WINDOW - STACK, segments);
    PairsOk(data, base, i);
    if !ok {
      return;
    }
    var size := phnum * ENTRY;
    NoWrap(phoff, p.offset);
    NoWrap(p.filesz, phoff - p.offset);
    NoWrap(p.vaddr + phoff, p.offset);
    NoWrap(entry, p.vaddr);
    if phoff >= p.offset && U(phoff - p.offset) <= p.filesz && size <= U(p.filesz - U(phoff - p.offset)) {
      phdr1 := U(p.vaddr + phoff - p.offset);
    }
    segments1 := segments + [SegmentOf(p)];
    if p.flags % 2 == 1 && entry >= p.vaddr && U(entry - p.vaddr) < p.filesz {
      executable1 := true;
    }
  }

  /** A difference that is a word does not wrap. */
  lemma NoWrap(x: int, y: int)
    ensures 0 <= x - y < U32 ==> U(x - y) == x - y
  {
  }

  lemma PhIs(data: seq<Byte>, i: nat)
    requires |data| >= HEADER && TableOk(data) && i < PhNum(data)
    ensures PhOff(data) + i * ENTRY + ENTRY <= |data| && Ph(data, i) == ReadHeader(data, PhOff(data) + i * ENTRY)
    ensures PhNum(data) <= MAX_SEGMENTS
  {
  }

  lemma HeadersNext(data: seq<Byte>, base: nat, i: nat)
    requires |data| >= HEADER && TableOk(data) && i < PhNum(data) && HeadersOk(data, base, i)
    ensures HeadersOk(data, base, i + 1) <==>
      && HeaderOk(Ph(data, i), |data|)
      && (Loads(Ph(data, i)) ==> InWindow(Ph(data, i), base) && forall j :: 0 <= j < i && Loads(Ph(data, j)) ==> Apart(Ph(data, j), Ph(data, i)))
  {
    hide Ph, HeaderOk, Apart, InWindow, Loads;
  }

  lemma EntryNext(data: seq<Byte>, i: nat)
    requires |data| >= HEADER && TableOk(data) && i < PhNum(data)
    ensures HasEntry(data, i + 1) <==> HasEntry(data, i) || HoldsEntry(Ph(data, i), EntryOf(data))
  {
    hide Ph, HoldsEntry;
  }

  lemma HeadersFewer(data: seq<Byte>, base: nat, i: nat, n: nat)
    requires |data| >= HEADER && TableOk(data) && i <= n <= PhNum(data) && HeadersOk(data, base, n)
    ensures HeadersOk(data, base, i)
  {
    hide Ph, HeaderOk, Apart, InWindow, Loads;
  }

  /** elf_validate: accepts exactly the acceptable images. Which diagnostic is returned is not stated. */
  method Validate(data: seq<Byte>) returns (r: Option<Plan>)
    requires |data| < U32
    ensures r.Some? <==> Acceptable(data)
    ensures r.Some? ==> r.value == PlanOf(data)
  {
    hide ReadHeader, Identified, AbiOk, Segments, TableAddress, HeadersOk, HasEntry, TableOk, BaseOf;
    var ok := CheckHeader(data);
    if !ok {
      return None;
    }
    var base := FindBase(data);
    if base != LOAD_MIN && (base < 0x0200_0000 || base > 0xbfc0_0000) {
      return None;
    }
    var stackTop := U(base + (STACK_TOP - LOAD_MIN));
    var segments: seq<Segment>, phdr, executable := [], 0, false;
    NoSegments(data, base);
    var i := 0;
    while i < PhNum(data)
      invariant 0 <= i <= PhNum(data) && HeadersOk(data, base, i)
      invariant segments == Segments(data, i) && phdr == TableAddress(data, i) && (executable <==> HasEntry(data, i))
    {
      ok, segments, phdr, executable := PlaceHeader(data, base, i, segments, phdr, executable);
      if !ok {
        if HeadersOk(data, base, PhNum(data)) {
          HeadersFewer(data, base, i + 1, PhNum(data));
        }
        return None;
      }
      i := i + 1;
    }
    if segments == [] {
      EntryNeedsSegment(data);
      return None;
    }
    if !executable {
      return None;
    }
    r := Some(Plan(EntryOf(data), base, stackTop, PhOff(data), PhNum(data), phdr, Legacy(data), segments));
  }

  lemma NoSegments(data: seq<Byte>, base: nat)
    requires |data| >= HEADER && TableOk(data)
    ensures Segments(data, 0) == [] && TableAddress(data, 0) == 0 && HeadersOk(data, base, 0) && !HasEntry(data, 0)
  {
  }

  lemma SegmentsNext(data: seq<Byte>, i: nat)
    requires |data| >= HEADER && TableOk(data) && i < PhNum(data)
    ensures Segments(data, i + 1) == Segments(data, i) + if Loads(Ph(data, i)) then [SegmentOf(Ph(data, i))] else []
    ensures TableAddress(data, i + 1) ==
      if HoldsTable(Ph(data, i), PhOff(data), PhNum(data) * ENTRY) then Ph(data, i).vaddr + (PhOff(data) - Ph(data, i).offset)
      else TableAddress(data, i)
  {
  }

  lemma PlacedBelow(data: seq<Byte>, base: nat, i: nat)
    requires |data| >= HEADER && TableOk(data) && i <= PhNum(data) && HeadersOk(data, base, i)
    ensures forall k :: 0 <= k < |Segments(data, i)| ==>
      Segments(data, i)[k].address + Segments(data, i)[k].memorySize <= base + WINDOW - STACK
  {
    hide Ph, HeaderOk;
    forall k | 0 <= k < |Segments(data, i)|
      ensures Segments(data, i)[k].address + Segments(data, i)[k].memorySize <= base + WINDOW - STACK
    {
      var j := SegmentFrom(data, i, k);
    }
  }

  /** Being apart from every segment is being apart from every earlier load. */
  lemma PairsOk(data: seq<Byte>, base: nat, i: nat)
    requires |data| >= HEADER && TableOk(data) && i < PhNum(data) && Loads(Ph(data, i)) && HeadersOk(data, base, i)
    ensures (forall k :: 0 <= k < |Segments(data, i)| ==> SegmentsApart(SegmentOf(Ph(data, i)), Segments(data, i)[k])) <==>
      (forall j :: 0 <= j < i && Loads(Ph(data, j)) ==> Apart(Ph(data, j), Ph(data, i)))
  {
    hide Ph, HeaderOk;
    if forall j :: 0 <= j < i && Loads(Ph(data, j)) ==> Apart(Ph(data, j), Ph(data, i)) {
      forall k | 0 <= k < |Segments(data, i)| ensures SegmentsApart(SegmentOf(Ph(data, i)), Segments(data, i)[k]) {
        var j := SegmentFrom(data, i, k);
      }
    }
    if forall k :: 0 <= k < |Segments(data, i)| ==> SegmentsApart(SegmentOf(Ph(data, i)), Segments(data, i)[k]) {
      forall j | 0 <= j < i && Loads(Ph(data, j)) ensures Apart(Ph(data, j), Ph(data, i)) {
        var k := SegmentAt(data, i, j);
      }
    }
  }

  lemma EntryNeedsSegment(data: seq<Byte>)
    requires |data| >= HEADER && TableOk(data) && Segments(data, PhNum(data)) == []
    ensures !HasEntry(data, PhNum(data))
  {
    hide Ph;
    forall i | 0 <= i < PhNum(data) && Loads(Ph(data, i)) ensures false {
      var k := SegmentAt(data, PhNum(data), i);
    }
  }

  // ------------------------------------------------------------ the bytes of an acceptable image

  /** Where program header `i` is in the file. */
  function HeaderAt(d: seq<Byte>, i: nat): nat {
    if |d| >= 52 then Load32(d, 28) + 32 * i else 0
  }

  /** The header at `h` asks for memory. */
  predicate LoadAt(d: seq<Byte>, h: nat) {
    h + 32 <= |d| && Load32(d, h) == 1 && Load32(d, h + 20) > 0
  }

  /** The header at `h` is of an allowed kind; what it loads is in the file, aligned, and in the window at `base`. */
  predicate HeaderFine(d: seq<Byte>, h: nat, base: nat) {
    && h + 32 <= |d|
    && if Load32(d, h) == 1 then
         && Load32(d, h + 16) <= Load32(d, h + 20) && Load32(d, h + 4) + Load32(d, h + 16) <= |d|
         && (Load32(d, h + 28) > 1 ==> PowerOfTwo(Load32(d, h + 28)) && Load32(d, h + 8) % Load32(d, h + 28) == Load32(d, h + 4) % Load32(d, h + 28))
         && (Load32(d, h + 20) > 0 ==> base <= Load32(d, h + 8) && Load32(d, h + 8) + Load32(d, h + 20) <= base + 0x3f_0000)
       else Load32(d, h) in {0, 4, 6, 0x6474_e551, 0x6474_e552, 0x6474_e553}
  }

  predicate LoadsApart(d: seq<Byte>, g: nat, h: nat) {
    LoadAt(d, g) && LoadAt(d, h) ==> Load32(d, g + 8) + Load32(d, g + 20) <= Load32(d, h + 8) || Load32(d, h + 8) + Load32(d, h + 20) <= Load32(d, g + 8)
  }

  /** An executable load holds the entry in its file part. */
  predicate EntryIn(d: seq<Byte>, h: nat) {
    |d| >= 52 && LoadAt(d, h) && Load32(d, h + 24) % 2 == 1 && Load32(d, h + 8) <= Load32(d, 24) < Load32(d, h + 8) + Load32(d, h + 16)
  }

  predicate OldAbi(d: seq<Byte>) {
    |d| >= 9 && d[7] == 255 && 7 <= d[8] <= 9
  }

  /** A window of 4 MiB suits all headers: any multiple of its size the system allows, or the only
      one of the old ABI. */
  ghost predicate Suits(d: seq<Byte>, base: nat) {
    && |d| >= 52 && base % 0x40_0000 == 0 && (base == 0x100_0000 || 0x200_0000 <= base <= 0xbfc0_0000) && (OldAbi(d) ==> base == 0x100_0000)
    && (forall i :: 0 <= i < Load16(d, 44) ==> HeaderFine(d, HeaderAt(d, i), base))
    && (forall i, j :: 0 <= i < j < Load16(d, 44) ==> LoadsApart(d, HeaderAt(d, i), HeaderAt(d, j)))
    && exists i :: 0 <= i < Load16(d, 44) && EntryIn(d, HeaderAt(d, i))
  }

  /** A static ELF32 executable for i386 of the System V or Linux ABI, or of the system's own. */
  predicate StaticI386(d: seq<Byte>) {
    && |d| >= 52 && d[0] == 0x7f && d[1] == 69 && d[2] == 76 && d[3] == 70 && d[4] == 1 && d[5] == 1 && d[6] == 1
    && (OldAbi(d) || ((d[7] == 0 || d[7] == 3) && d[8] == 0))
    && Load16(d, 16) == 2 && Load16(d, 18) == 3 && Load32(d, 20) == 1 && Load32(d, 36) == 0
    && Load16(d, 40) == 52 && Load16(d, 42) == 32 && 1 <= Load16(d, 44) <= 32 && Load32(d, 28) + 32 * Load16(d, 44) <= |d|
  }

  /** Where the fields of a header are in the file. */
  lemma Fields(data: seq<Byte>, i: nat)
    requires |data| >= HEADER && TableOk(data) && i < PhNum(data)
    ensures var h, p := HeaderAt(data, i), Ph(data, i);
      && h + 32 <= |data| && p.kind == Load32(data, h) && p.offset == Load32(data, h + 4) && p.vaddr == Load32(data, h + 8)
      && p.filesz == Load32(data, h + 16) && p.memsz == Load32(data, h + 20) && p.flags == Load32(data, h + 24) && p.align == Load32(data, h + 28)
      && (Loads(p) <==> LoadAt(data, h))
  {
  }

  lemma HeaderMeans(data: seq<Byte>, i: nat, base: nat)
    requires |data| >= HEADER && TableOk(data) && i < PhNum(data)
    ensures HeaderOk(Ph(data, i), |data|) && (Loads(Ph(data, i)) ==> InWindow(Ph(data, i), base)) <==> HeaderFine(data, HeaderAt(data, i), base)
    ensures HoldsEntry(Ph(data, i), EntryOf(data)) <==> EntryIn(data, HeaderAt(data, i))
  {
    hide Ph, Load32, Load16, PowerOfTwo;
    Fields(data, i);
  }

  /** No load lies below the least address, which is that of a load if there is one. */
  lemma {:induction false} LowestLoad(data: seq<Byte>, n: nat)
    requires |data| >= HEADER && TableOk(data) && n <= PhNum(data)
    ensures forall i :: 0 <= i < n && Loads(Ph(data, i)) ==> Lowest(data, n) <= Ph(data, i).vaddr
    ensures ((forall i :: 0 <= i < n ==> !Loads(Ph(data, i))) && Lowest(data, n) == 0xffff_ffff) || exists i :: 0 <= i < n && Loads(Ph(data, i)) && Ph(data, i).vaddr == Lowest(data, n)
  {
    hide Ph, Loads;
    if n > 0 {
      LowestLoad(data, n - 1);
      if Loads(Ph(data, n - 1)) && Ph(data, n - 1).vaddr <= Lowest(data, n - 1) {
        assert Ph(data, n - 1).vaddr == Lowest(data, n);
      } else if i :| 0 <= i < n - 1 && Loads(Ph(data, i)) && Ph(data, i).vaddr == Lowest(data, n - 1) {
        assert Ph(data, i).vaddr == Lowest(data, n);
      }
    }
  }

  /** What elf_validate accepts, on the bytes of the file. */
  lemma AcceptableMeans(data: seq<Byte>)
    ensures Acceptable(data) <==> StaticI386(data) && exists base :: Suits(data, base)
    ensures Acceptable(data) ==> Suits(data, PlanOf(data).base)
  {
    hide Ph, Load32, Load16, HeaderOk, HeaderFine, InWindow, HoldsEntry, EntryIn, HeadersOk, HasEntry, LoadsApart, Apart, Suits, BaseOf;
    if |data| >= HEADER && Identified(data) && TableOk(data) && AbiOk(data) {
      if Acceptable(data) {
        BaseAligned(data);
        OnlyOld(data);
        SuitsIs(data, BaseOf(data));
      }
      if base: nat :| Suits(data, base) {
        BaseIs(data, base);
        SuitsIs(data, base);
      }
    }
  }

  lemma OnlyOld(data: seq<Byte>)
    requires |data| >= HEADER && TableOk(data)
    ensures Legacy(data) ==> BaseOf(data) == LOAD_MIN
  {
  }

  lemma SuitsIs(data: seq<Byte>, base: nat)
    requires |data| >= HEADER && TableOk(data) && base % WINDOW == 0 && (Legacy(data) ==> base == LOAD_MIN)
    ensures Suits(data, base) <==> WindowOk(base) && HeadersOk(data, base, PhNum(data)) && HasEntry(data, PhNum(data))
  {
    hide Ph, Load32, Load16, HeaderOk, HeaderFine, InWindow, HoldsEntry, EntryIn, Loads, LoadAt;
    var n := PhNum(data);
    forall i | 0 <= i < n
      ensures HeaderOk(Ph(data, i), |data|) && (Loads(Ph(data, i)) ==> InWindow(Ph(data, i), base)) <==> HeaderFine(data, HeaderAt(data, i), base)
      ensures HoldsEntry(Ph(data, i), EntryOf(data)) <==> EntryIn(data, HeaderAt(data, i))
    {
      HeaderMeans(data, i, base);
    }
    forall i, j | 0 <= i < j < n
      ensures (Loads(Ph(data, i)) && Loads(Ph(data, j)) ==> Apart(Ph(data, i), Ph(data, j)))
              <==> LoadsApart(data, HeaderAt(data, i), HeaderAt(data, j))
    {
      Fields(data, i);
      Fields(data, j);
    }
  }

  /** There is only one such window. */
  lemma BaseIs(data: seq<Byte>, base: nat)
    requires |data| >= HEADER && TableOk(data) && Suits(data, base)
    ensures base == BaseOf(data) && base % WINDOW == 0 && (Legacy(data) ==> base == LOAD_MIN)
  {
    hide Ph, Load32, Load16, PowerOfTwo;
    var n := PhNum(data);
    LowestLoad(data, n);
    var e :| 0 <= e < Load16(data, 44) && EntryIn(data, HeaderAt(data, e));
    forall i | 0 <= i < n && Loads(Ph(data, i)) ensures base <= Ph(data, i).vaddr < base + WINDOW {
      Fields(data, i);
      assert HeaderFine(data, HeaderAt(data, i), base);
    }
    Fields(data, e);
    assert Loads(Ph(data, e));
    var m :| 0 <= m < n && Loads(Ph(data, m)) && Ph(data, m).vaddr == Lowest(data, n);
    var q := base / WINDOW;
    DivModUnique(Lowest(data, n), WINDOW, q, Lowest(data, n) - base);
  }

  /** Where the plan says the table is, a load has it. */
  lemma {:induction false} TableFrom(data: seq<Byte>, n: nat)
    requires |data| >= HEADER && TableOk(data) && n <= PhNum(data)
    ensures TableAddress(data, n) != 0 ==> exists i :: 0 <= i < n && TableHeldBy(data, i, TableAddress(data, n))
  {
    hide Ph, HoldsTable, PhOff, PhNum, TableOk;
    if n > 0 {
      TableFrom(data, n - 1);
      if HoldsTable(Ph(data, n - 1), PhOff(data), PhNum(data) * ENTRY) {
        assert TableHeldBy(data, n - 1, TableAddress(data, n));
      } else if TableAddress(data, n) != 0 {
        var i :| 0 <= i < n - 1 && TableHeldBy(data, i, TableAddress(data, n - 1));
        assert TableHeldBy(data, i, TableAddress(data, n));
      }
    }
  }

  predicate TableHeldBy(data: seq<Byte>, i: nat, address: nat)
    requires |data| >= HEADER && TableOk(data)
  {
    i < PhNum(data) && HoldsTable(Ph(data, i), PhOff(data), PhNum(data) * ENTRY) && address == Ph(data, i).vaddr + (PhOff(data) - Ph(data, i).offset)
  }
}
