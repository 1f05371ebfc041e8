/** linux_memory.c: the one physical arena every task runs in, seen through a virtual
    window of the same size whose base is the running program's. */
module LinuxMemory {
  import opened Bytes

  const PAGE := 4096
  const STACK_SIZE := 0x10000

  /** What a task keeps while it is not running (the arena itself is snapshotted apart). */
  datatype MemoryState = MemoryState(base: nat, heapBase: nat, heapBreak: nat)

  function AlignPage(x: nat): (r: nat)
    ensures x <= r < x + PAGE && r % PAGE == 0
    ensures x % PAGE == 0 ==> r == x
  {
    (x + 4095) / PAGE * PAGE
  }

  ghost predicate StateOk(size: nat, s: MemoryState) {
    && s.base % PAGE == 0
    && s.heapBase % PAGE == 0
    && s.base <= s.heapBase <= s.heapBreak
    && s.heapBreak + STACK_SIZE <= s.base + size
  }

  class Memory {
    const size: nat
    var arena: seq<Byte>
    var base: nat
    var heapBase: nat
    var heapBreak: nat

    ghost predicate Valid()
      reads this
    {
      && |arena| == size
      && StateOk(size, MemoryState(base, heapBase, heapBreak))
    }

    constructor (bytes: nat, windowBase: nat)
      requires bytes >= STACK_SIZE && windowBase % PAGE == 0
      ensures Valid() && size == bytes && base == windowBase && heapBase == heapBreak == windowBase
      ensures arena == seq(bytes, _ => 0)
    {
      size := bytes;
      arena := seq(bytes, _ => 0);
      base, heapBase, heapBreak := windowBase, windowBase, windowBase;
    }

    function Capture(): MemoryState
      reads this
    {
      MemoryState(base, heapBase, heapBreak)
    }

    /** Is `[address, address + length)` inside the user window? */
    predicate UserRange(address: nat, length: nat): (r: bool)
      reads this
      ensures r <==> base <= address && address + length <= base + size
    {
      base <= address <= base + size && length <= base + size - address
    }

    method Enter(windowBase: nat, imageEnd: nat)
      requires |arena| == size
      requires windowBase % PAGE == 0 && windowBase <= imageEnd
      requires AlignPage(imageEnd) + STACK_SIZE <= windowBase + size
      modifies this`base, this`heapBase, this`heapBreak
      ensures Valid()
      ensures Capture() == MemoryState(windowBase, AlignPage(imageEnd), AlignPage(imageEnd))
      ensures imageEnd <= heapBase < imageEnd + 4096 && heapBase % 4096 == 0
    {
      base := windowBase;
      heapBase := AlignPage(imageEnd);
      heapBreak := heapBase;
    }

    /** Restores exactly what `Capture` recorded: re-entering with the saved heap base
        rounds it up again, which changes nothing because it already was page-aligned. */
    method Resume(s: MemoryState)
      requires |arena| == size && StateOk(size, s)
      modifies this`base, this`heapBase, this`heapBreak
      ensures Valid() && Capture() == s
    {
      Enter(s.base, s.heapBase);
      heapBreak := s.heapBreak;
    }

    /** schedule's copy of a snapshot into the arena, and its window. */
    method Load(bytes: seq<Byte>, s: MemoryState)
      requires |bytes| == size && StateOk(size, s)
      modifies this
      ensures Valid() && arena == bytes && Capture() == s
    {
      arena := bytes;
      Resume(s);
    }

    /** `brk`: memory gained by growing the heap reads as zero; a request outside
        the heap leaves the break where it is. */
    method Brk(requested: nat) returns (r: nat)
      requires Valid()
      modifies this`arena, this`heapBreak
      ensures Valid()
      ensures r == heapBreak
      ensures heapBreak == if heapBase <= requested <= base + size - 0x1_0000 then requested else old(heapBreak)
      ensures forall i :: 0 <= i < size ==>
        arena[i] == if old(heapBreak) <= base + i < heapBreak then 0 else old(arena[i])
    {
      if heapBase <= requested <= base + size - STACK_SIZE {
        if requested > heapBreak {
          arena := Splice(arena, heapBreak - base, seq(requested - heapBreak, _ => 0));
        }
        heapBreak := requested;
      }
      r := heapBreak;
    }
  }
}
