/** fs.c, the write-back path: the block cache with its before-images, in-memory
    rollback, and the ordered commit with its dirty marker. */
module Ext2Commit {
  import opened Bytes
  import opened Ext2Layout

  const SECTOR := 512
  const CACHE_BLOCKS := 2048
  /** Offset of the 16-bit state field, in sector 2. */
  const STATE := 58
  const CLEAN := 1
  const DIRTY := 2
  const SUPER_LBA := 2
  const DESCRIPTORS_LBA := 4

  /** What reaches the device, in order. */
  datatype Op = Write(lba: nat, bytes: seq<Byte>) | Flush

  type Disk = seq<seq<Byte>>

  ghost predicate DiskOk(disk: Disk) {
    |disk| > SUPER_LBA + 1 && forall s :: 0 <= s < |disk| ==> |disk[s]| == SECTOR
  }

  /** A write past the end of the device changes nothing. */
  function Put(disk: Disk, op: Op): (r: Disk)
    ensures |r| == |disk|
  {
    if op.Write? && op.lba < |disk| then disk[op.lba := op.bytes] else disk
  }

  /** The disk once every operation has taken effect. */
  function Run(disk: Disk, ops: seq<Op>): (r: Disk)
    ensures |r| == |disk|
  {
    if ops == [] then disk else Put(Run(disk, ops[..|ops| - 1]), ops[|ops| - 1])
  }

  /** Number of operations up to and including the last flush. */
  function Flushed(ops: seq<Op>): (r: nat)
    ensures r <= |ops|
  {
    if ops == [] then 0
    else if ops[|ops| - 1].Flush? then |ops|
    else Flushed(ops[..|ops| - 1])
  }

  /** The operations of `ops`, numbered from `first`, that take effect although the
      unflushed writes numbered in `lost` never do. */
  function Kept(ops: seq<Op>, first: nat, flushed: nat, lost: set<nat>): seq<Op> {
    if ops == [] then []
    else
      var n := |ops| - 1;
      Kept(ops[..n], first, flushed, lost) + if first + n >= flushed && first + n in lost then [] else [ops[n]]
  }

  /** The disk found after a crash: everything before the last flush, and the later
      writes that were not lost. A sector write is atomic, a flush is a barrier. */
  function Crash(disk: Disk, ops: seq<Op>, lost: set<nat>): Disk {
    Run(disk, Kept(ops, 0, Flushed(ops), lost))
  }

  function State(disk: Disk): int
    requires |disk| > SUPER_LBA && |disk[SUPER_LBA]| == SECTOR
  {
    var b0: int, b1: int := disk[SUPER_LBA][STATE], disk[SUPER_LBA][STATE + 1];
    b0 + 0x100 * b1
  }

  /** The superblock with its state field set. */
  function Marked(super: seq<Byte>, state: nat): (r: seq<Byte>)
    requires |super| == BLOCK && state < 0x1_0000
    ensures |r| == BLOCK
  {
    Splice(super, STATE, [state % 0x100, state / 0x100])
  }

  datatype Entry = Entry(block: nat, data: seq<Byte>, before: seq<Byte>)

  /** Half of a block. */
  function Half(block: seq<Byte>, h: nat): (r: seq<Byte>)
    requires |block| == BLOCK && h < 2
    ensures |r| == SECTOR
  {
    block[h * SECTOR..(h + 1) * SECTOR]
  }

  ghost predicate EntryOk(e: Entry, disk: Disk, reserved: nat) {
    && |e.data| == BLOCK && |e.before| == BLOCK
    && e.block >= reserved && 2 * e.block + 1 < |disk|
    && e.before == disk[2 * e.block] + disk[2 * e.block + 1]
  }

  /** The cache mirrors the disk: one entry a block, before-images as on disk, and no
      entry aliasing the superblock or the descriptor table (blocks below `reserved`). */
  ghost predicate CacheOk(cache: seq<Entry>, disk: Disk, reserved: nat) {
    && (forall i :: 0 <= i < |cache| ==> EntryOk(cache[i], disk, reserved))
    && (forall i, j :: 0 <= i < j < |cache| ==> cache[i].block != cache[j].block)
  }

  // ------------------------------------------------------------ the commit as a list

  function EntryOps(e: Entry): seq<Op>
    requires |e.data| == BLOCK && |e.before| == BLOCK
  {
    (if Half(e.data, 0) != Half(e.before, 0) then [Write(2 * e.block, Half(e.data, 0))] else [])
    + (if Half(e.data, 1) != Half(e.before, 1) then [Write(2 * e.block + 1, Half(e.data, 1))] else [])
  }

  function CacheOps(cache: seq<Entry>): seq<Op>
    requires forall i :: 0 <= i < |cache| ==> |cache[i].data| == BLOCK && |cache[i].before| == BLOCK
  {
    if cache == [] then [] else CacheOps(cache[..|cache| - 1]) + EntryOps(cache[|cache| - 1])
  }

  /** Sector `s` of the descriptor table. */
  function TableSector(table: seq<Byte>, s: nat): (r: seq<Byte>)
    requires (s + 1) * SECTOR <= |table|
    ensures |r| == SECTOR
  {
    table[s * SECTOR..(s + 1) * SECTOR]
  }

  function SectorOps(table: seq<Byte>, saved: seq<Byte>, s: nat): seq<Op>
    requires (s + 1) * SECTOR <= |table| == |saved|
  {
    if TableSector(table, s) != TableSector(saved, s) then [Write(DESCRIPTORS_LBA + s, TableSector(table, s))] else []
  }

  /** Changed sectors among the first `n` of the descriptor table. */
  function DescriptorOps(table: seq<Byte>, saved: seq<Byte>, n: nat): seq<Op>
    requires n * SECTOR <= |table| == |saved|
  {
    if n == 0 then [] else DescriptorOps(table, saved, n - 1) + SectorOps(table, saved, n - 1)
  }

  function TailOps(super: seq<Byte>, saved: seq<Byte>): seq<Op>
    requires |super| == |saved| == BLOCK
  {
    if Half(super, 1) != Half(saved, 1) then [Write(SUPER_LBA + 1, Half(super, 1))] else []
  }

  /** The writes between the two barriers. */
  function BodyOps(cache: seq<Entry>, super: seq<Byte>, savedSuper: seq<Byte>, table: seq<Byte>, savedTable: seq<Byte>, n: nat): seq<Op>
    requires forall i :: 0 <= i < |cache| ==> |cache[i].data| == BLOCK && |cache[i].before| == BLOCK
    requires |super| == |savedSuper| == BLOCK && n * SECTOR <= |table| == |savedTable|
  {
    CacheOps(cache) + DescriptorOps(table, savedTable, n) + TailOps(super, savedSuper)
  }

  /** Everything a successful `finish` issues. */
  function FinishOps(cache: seq<Entry>, super: seq<Byte>, savedSuper: seq<Byte>, table: seq<Byte>, savedTable: seq<Byte>, n: nat): seq<Op>
    requires forall i :: 0 <= i < |cache| ==> |cache[i].data| == BLOCK && |cache[i].before| == BLOCK
    requires |super| == |savedSuper| == BLOCK && n * SECTOR <= |table| == |savedTable|
  {
    [Write(SUPER_LBA, Half(Marked(super, DIRTY), 0)), Flush]
    + BodyOps(cache, super, savedSuper, table, savedTable, n)
    + [Flush, Write(SUPER_LBA, Half(Marked(super, CLEAN), 0)), Flush]
  }

  // ------------------------------------------------------------ the new volume

  ghost function CachedAt(cache: seq<Entry>, lba: nat): int
    ensures var i := CachedAt(cache, lba); -1 <= i < |cache| && (i >= 0 ==> cache[i].block == lba / 2)
    ensures CachedAt(cache, lba) == -1 ==> forall i :: 0 <= i < |cache| ==> cache[i].block != lba / 2
  {
    if cache == [] then -1
    else if cache[|cache| - 1].block == lba / 2 then |cache| - 1
    else CachedAt(cache[..|cache| - 1], lba)
  }

  /** Sector `lba` of the volume a commit is meant to produce. */
  ghost function NewSector(disk: Disk, cache: seq<Entry>, super: seq<Byte>, table: seq<Byte>, n: nat, lba: nat): seq<Byte>
    requires lba < |disk| && |super| == BLOCK && n * SECTOR <= |table|
    requires forall i :: 0 <= i < |cache| ==> |cache[i].data| == BLOCK
  {
    if lba == SUPER_LBA then Half(Marked(super, CLEAN), 0)
    else if lba == SUPER_LBA + 1 then Half(super, 1)
    else if DESCRIPTORS_LBA <= lba < DESCRIPTORS_LBA + n then
      TableSector(table, lba - DESCRIPTORS_LBA)
    else
      var i := CachedAt(cache, lba);
      if i >= 0 then Half(cache[i].data, lba % 2) else disk[lba]
  }

  /** The disk holds exactly that volume. */
  ghost predicate IsNew(result: Disk, disk: Disk, cache: seq<Entry>, super: seq<Byte>, table: seq<Byte>, n: nat)
    requires |super| == BLOCK && n * SECTOR <= |table|
    requires forall i :: 0 <= i < |cache| ==> |cache[i].data| == BLOCK
  {
    |result| == |disk| && forall lba :: 0 <= lba < |disk| ==> result[lba] == NewSector(disk, cache, super, table, n, lba)
  }

  /** Memory and disk agree on what was there when the operation began. */
  ghost predicate Mirrors(disk: Disk, cache: seq<Entry>, savedSuper: seq<Byte>, savedTable: seq<Byte>, n: nat) {
    && DiskOk(disk) && DESCRIPTORS_LBA + n <= |disk|
    && |savedSuper| == BLOCK && n * SECTOR <= |savedTable|
    && savedSuper == disk[SUPER_LBA] + disk[SUPER_LBA + 1]
    && (forall s :: 0 <= s < n ==> TableSector(savedTable, s) == disk[DESCRIPTORS_LBA + s])
    && CacheOk(cache, disk, DESCRIPTORS_LBA / 2 + (n + 1) / 2)
  }

  // ------------------------------------------------------------ running lists of operations

  lemma {:induction false} RunAppend(disk: Disk, a: seq<Op>, b: seq<Op>)
    ensures Run(disk, a + b) == Run(Run(disk, a), b)
    decreases |b|
  {
    if b == [] {
      assert a + b == a;
    } else {
      var n := |b| - 1;
      RunAppend(disk, a, b[..n]);
      assert (a + b)[..|a| + n] == a + b[..n];
    }
  }

  ghost predicate Avoids(ops: seq<Op>, lba: nat) {
    forall i :: 0 <= i < |ops| && ops[i].Write? ==> ops[i].lba != lba
  }

  lemma {:induction false} RunAvoids(disk: Disk, ops: seq<Op>, lba: nat)
    requires lba < |disk| && Avoids(ops, lba)
    ensures Run(disk, ops)[lba] == disk[lba]
  {
    if ops != [] {
      RunAvoids(disk, ops[..|ops| - 1], lba);
    }
  }

  lemma {:induction false} KeptAvoids(ops: seq<Op>, first: nat, flushed: nat, lost: set<nat>, lba: nat)
    requires Avoids(ops, lba)
    ensures Avoids(Kept(ops, first, flushed, lost), lba)
  {
    if ops != [] {
      KeptAvoids(ops[..|ops| - 1], first, flushed, lost, lba);
    }
  }

  lemma {:induction false} KeptConcat(a: seq<Op>, b: seq<Op>, first: nat, flushed: nat, lost: set<nat>)
    ensures Kept(a + b, first, flushed, lost) == Kept(a, first, flushed, lost) + Kept(b, first + |a|, flushed, lost)
    decreases |b|
  {
    if b == [] {
      assert a + b == a;
    } else {
      var n := |b| - 1;
      KeptConcat(a, b[..n], first, flushed, lost);
      assert (a + b)[..|a| + n] == a + b[..n];
    }
  }

  /** Everything up to a flush survives. */
  lemma {:induction false} KeptAll(ops: seq<Op>, first: nat, flushed: nat, lost: set<nat>)
    requires flushed >= first + |ops|
    ensures Kept(ops, first, flushed, lost) == ops
  {
    if ops != [] {
      KeptAll(ops[..|ops| - 1], first, flushed, lost);
    }
  }

  lemma {:induction false} FlushedAtLeast(ops: seq<Op>, i: nat)
    requires i < |ops| && ops[i].Flush?
    ensures Flushed(ops) > i
  {
    if !ops[|ops| - 1].Flush? {
      FlushedAtLeast(ops[..|ops| - 1], i);
    }
  }

  // ------------------------------------------------------------ what the body writes

  lemma {:induction false} HalvesOf(a: seq<Byte>, b: seq<Byte>)
    requires |a| == SECTOR && |b| == SECTOR
    ensures Half(a + b, 0) == a && Half(a + b, 1) == b
  {
  }

  /** After the cached blocks were written, each cached sector holds its new data and
      every other sector what it held. */
  lemma {:induction false} CacheRun(base: Disk, disk: Disk, cache: seq<Entry>, reserved: nat, lba: nat)
    requires DiskOk(disk) && CacheOk(cache, disk, reserved) && |base| == |disk| && lba < |disk|
    requires base[lba] == disk[lba]
    ensures Run(base, CacheOps(cache))[lba] ==
      var i := CachedAt(cache, lba); if i >= 0 then Half(cache[i].data, lba % 2) else disk[lba]
  {
    hide Run, Half, DiskOk, EntryOps, Avoids;
    if cache == [] {
      RunNothing(base);
    } else {
      var n := |cache| - 1;
      var e := cache[n];
      CacheRun(base, disk, cache[..n], reserved, lba);
      RunAppend(base, CacheOps(cache[..n]), EntryOps(e));
      EntryRun(Run(base, CacheOps(cache[..n])), disk, e, reserved, lba);
    }
  }

  lemma RunNothing(base: Disk)
    ensures Run(base, []) == base
  {
  }

  lemma RunIf(base: Disk, changed: bool, lba: nat, bytes: seq<Byte>)
    ensures Run(base, if changed then [Write(lba, bytes)] else []) == if changed then Put(base, Write(lba, bytes)) else base
  {
    assert [Write(lba, bytes)][..0] == [];
  }

  lemma TwoWrites(base: Disk, c0: bool, even: nat, b0: seq<Byte>, c1: bool, odd: nat, b1: seq<Byte>, lba: nat)
    requires lba < |base| && even != odd
    ensures var ops := (if c0 then [Write(even, b0)] else []) + (if c1 then [Write(odd, b1)] else []);
      Run(base, ops)[lba] == if c0 && lba == even then b0 else if c1 && lba == odd then b1 else base[lba]
  {
    hide Run;
    var first := if c0 then [Write(even, b0)] else [];
    RunAppend(base, first, if c1 then [Write(odd, b1)] else []);
    RunIf(base, c0, even, b0);
    RunIf(Run(base, first), c1, odd, b1);
  }

  lemma EntryWrites(base: Disk, e: Entry, h: nat)
    requires |e.data| == BLOCK && |e.before| == BLOCK && h < 2 && 2 * e.block + 1 < |base|
    requires base[2 * e.block + h] == Half(e.before, h)
    ensures Run(base, EntryOps(e))[2 * e.block + h] == Half(e.data, h)
  {
    hide Run, Half;
    TwoWrites(base, Half(e.data, 0) != Half(e.before, 0), 2 * e.block, Half(e.data, 0),
              Half(e.data, 1) != Half(e.before, 1), 2 * e.block + 1, Half(e.data, 1), 2 * e.block + h);
  }

  lemma EntrySpares(base: Disk, e: Entry, lba: nat)
    requires |e.data| == BLOCK && |e.before| == BLOCK
    requires lba < |base| && lba != 2 * e.block && lba != 2 * e.block + 1
    ensures Run(base, EntryOps(e))[lba] == base[lba]
  {
    hide Run, Half;
    TwoWrites(base, Half(e.data, 0) != Half(e.before, 0), 2 * e.block, Half(e.data, 0),
              Half(e.data, 1) != Half(e.before, 1), 2 * e.block + 1, Half(e.data, 1), lba);
  }

  lemma BeforeHalf(disk: Disk, e: Entry, reserved: nat, h: nat)
    requires DiskOk(disk) && EntryOk(e, disk, reserved) && h < 2
    ensures Half(e.before, h) == disk[2 * e.block + h]
  {
    HalvesOf(disk[2 * e.block], disk[2 * e.block + 1]);
  }

  lemma EntryRun(base: Disk, disk: Disk, e: Entry, reserved: nat, lba: nat)
    requires DiskOk(disk) && EntryOk(e, disk, reserved) && |base| == |disk| && lba < |disk|
    requires e.block == lba / 2 ==> base[lba] == disk[lba]
    ensures Run(base, EntryOps(e))[lba] == if e.block == lba / 2 then Half(e.data, lba % 2) else base[lba]
  {
    hide Run, Half, DiskOk, EntryOps;
    if e.block == lba / 2 {
      assert lba == 2 * e.block + lba % 2;
      BeforeHalf(disk, e, reserved, lba % 2);
      EntryWrites(base, e, lba % 2);
    } else {
      EntrySpares(base, e, lba);
    }
  }

  lemma {:induction false} CacheAvoids(cache: seq<Entry>, disk: Disk, reserved: nat, lba: nat)
    requires DiskOk(disk) && CacheOk(cache, disk, reserved) && lba < 2 * reserved
    ensures Avoids(CacheOps(cache), lba)
    ensures CachedAt(cache, lba) == -1
  {
    if cache != [] {
      CacheAvoids(cache[..|cache| - 1], disk, reserved, lba);
    }
  }

  lemma {:induction false} DescriptorAvoids(table: seq<Byte>, saved: seq<Byte>, n: nat, lba: nat)
    requires n * SECTOR <= |table| == |saved|
    requires lba < DESCRIPTORS_LBA || lba >= DESCRIPTORS_LBA + n
    ensures Avoids(DescriptorOps(table, saved, n), lba)
  {
    if n > 0 {
      DescriptorAvoids(table, saved, n - 1, lba);
    }
  }

  lemma {:induction false} DescriptorRun(base: Disk, table: seq<Byte>, saved: seq<Byte>, n: nat, s: nat)
    requires n * SECTOR <= |table| == |saved| && s < n && DESCRIPTORS_LBA + n <= |base|
    requires base[DESCRIPTORS_LBA + s] == TableSector(saved, s)
    ensures Run(base, DescriptorOps(table, saved, n))[DESCRIPTORS_LBA + s] == TableSector(table, s)
  {
    hide Run;
    var m := n - 1;
    var before := DescriptorOps(table, saved, m);
    RunAppend(base, before, SectorOps(table, saved, m));
    RunIf(Run(base, before), TableSector(table, m) != TableSector(saved, m), DESCRIPTORS_LBA + m, TableSector(table, m));
    if s == m {
      DescriptorAvoids(table, saved, m, DESCRIPTORS_LBA + s);
      RunAvoids(base, before, DESCRIPTORS_LBA + s);
    } else {
      DescriptorRun(base, table, saved, m, s);
    }
  }

  // ------------------------------------------------------------ the commit theorems

  lemma HeadRun(disk: Disk, super: seq<Byte>)
    requires DiskOk(disk) && |super| == BLOCK
    ensures var head := [Write(SUPER_LBA, Half(Marked(super, DIRTY), 0)), Flush];
      Run(disk, head) == disk[SUPER_LBA := Half(Marked(super, DIRTY), 0)]
  {
    var w := Write(SUPER_LBA, Half(Marked(super, DIRTY), 0));
    assert [w, Flush] == [w] + [Flush];
    RunAppend(disk, [w], [Flush]);
    RunIf(disk, true, SUPER_LBA, Half(Marked(super, DIRTY), 0));
    assert [Flush][..0] == [];
  }

  lemma MarkedState(disk: Disk, super: seq<Byte>, state: nat)
    requires |disk| > SUPER_LBA && |super| == BLOCK && state < 0x100
    requires disk[SUPER_LBA] == Half(Marked(super, state), 0)
    ensures State(disk) == state
  {
  }

  lemma BodyAvoids(cache: seq<Entry>, disk: Disk, super: seq<Byte>, savedSuper: seq<Byte>, table: seq<Byte>, savedTable: seq<Byte>, n: nat)
    requires Mirrors(disk, cache, savedSuper, savedTable, n) && |super| == BLOCK && |table| == |savedTable|
    ensures Avoids(BodyOps(cache, super, savedSuper, table, savedTable, n), SUPER_LBA)
  {
    CacheAvoids(cache, disk, DESCRIPTORS_LBA / 2 + (n + 1) / 2, SUPER_LBA);
    DescriptorAvoids(table, savedTable, n, SUPER_LBA);
  }

  /** Between the barriers everything but the state sector becomes new. */
  lemma BodyRun(base: Disk, cache: seq<Entry>, disk: Disk, super: seq<Byte>, savedSuper: seq<Byte>,
                table: seq<Byte>, savedTable: seq<Byte>, n: nat, lba: nat)
    requires Mirrors(disk, cache, savedSuper, savedTable, n) && |super| == BLOCK && |table| == |savedTable|
    requires |base| == |disk| && lba < |disk| && lba != SUPER_LBA && base[lba] == disk[lba]
    ensures Run(base, BodyOps(cache, super, savedSuper, table, savedTable, n))[lba]
         == NewSector(disk, cache, super, table, n, lba)
  {
    hide Run, Half, CacheOps, DescriptorOps, CachedAt, Avoids, TableSector;
    var reserved := DESCRIPTORS_LBA / 2 + (n + 1) / 2;
    var a, b, c := CacheOps(cache), DescriptorOps(table, savedTable, n), TailOps(super, savedSuper);
    RunAppend(base, a + b, c);
    RunAppend(base, a, b);
    HalvesOf(disk[SUPER_LBA], disk[SUPER_LBA + 1]);
    RunIf(Run(base, a + b), Half(super, 1) != Half(savedSuper, 1), SUPER_LBA + 1, Half(super, 1));
    if lba < DESCRIPTORS_LBA + n {
      CacheAvoids(cache, disk, reserved, lba);
      RunAvoids(base, a, lba);
      if lba >= DESCRIPTORS_LBA {
        DescriptorRun(Run(base, a), table, savedTable, n, lba - DESCRIPTORS_LBA);
      } else {
        DescriptorAvoids(table, savedTable, n, lba);
        RunAvoids(Run(base, a), b, lba);
      }
    } else {
      DescriptorAvoids(table, savedTable, n, lba);
      RunAvoids(Run(base, a), b, lba);
      CacheRun(base, disk, cache, reserved, lba);
    }
  }

  /** A commit that was not interrupted leaves exactly the new volume. */
  lemma CommitComplete(cache: seq<Entry>, disk: Disk, super: seq<Byte>, savedSuper: seq<Byte>,
                       table: seq<Byte>, savedTable: seq<Byte>, n: nat)
    requires Mirrors(disk, cache, savedSuper, savedTable, n) && |super| == BLOCK && |table| == |savedTable|
    ensures IsNew(Run(disk, FinishOps(cache, super, savedSuper, table, savedTable, n)), disk, cache, super, table, n)
  {
    hide Run, Half;
    var head := [Write(SUPER_LBA, Half(Marked(super, DIRTY), 0)), Flush];
    var body := BodyOps(cache, super, savedSuper, table, savedTable, n);
    HeadRun(disk, super);
    RunAppend(disk, head, body);
    CleanRun(Run(disk, head + body), super);
    assert FinishOps(cache, super, savedSuper, table, savedTable, n) == (head + body) + CleanOps(super);
    RunAppend(disk, head + body, CleanOps(super));
    forall lba | 0 <= lba < |disk| && lba != SUPER_LBA
      ensures Run(disk, head + body)[lba] == NewSector(disk, cache, super, table, n, lba)
    {
      BodyRun(Run(disk, head), cache, disk, super, savedSuper, table, savedTable, n, lba);
    }
  }

  function CleanOps(super: seq<Byte>): seq<Op>
    requires |super| == BLOCK
  {
    [Flush, Write(SUPER_LBA, Half(Marked(super, CLEAN), 0)), Flush]
  }

  lemma CleanRun(base: Disk, super: seq<Byte>)
    requires |super| == BLOCK && |base| > SUPER_LBA
    ensures Run(base, CleanOps(super)) == base[SUPER_LBA := Half(Marked(super, CLEAN), 0)]
    ensures Run(base, CleanOps(super)[..2]) == base[SUPER_LBA := Half(Marked(super, CLEAN), 0)]
  {
    var w := Write(SUPER_LBA, Half(Marked(super, CLEAN), 0));
    var f: seq<Op> := [Flush];
    assert f[..0] == [];
    assert Run(base, f) == base;
    RunAppend(base, f, [w]);
    RunIf(base, true, SUPER_LBA, Half(Marked(super, CLEAN), 0));
    RunAppend(base, f + [w], f);
    assert f[..0] == [];
    assert CleanOps(super) == f + [w] + f;
    assert CleanOps(super)[..2] == f + [w];
  }

  /** Cut anywhere, with any unflushed writes lost, the disk is the old volume, the
      complete new one, or carries a state the mount code refuses. */
  lemma CrashPrefix(cache: seq<Entry>, disk: Disk, super: seq<Byte>, savedSuper: seq<Byte>,
                    table: seq<Byte>, savedTable: seq<Byte>, n: nat, k: nat, lost: set<nat>)
    requires Mirrors(disk, cache, savedSuper, savedTable, n) && |super| == BLOCK && |table| == |savedTable|
    requires k <= |FinishOps(cache, super, savedSuper, table, savedTable, n)|
    ensures var after := Crash(disk, FinishOps(cache, super, savedSuper, table, savedTable, n)[..k], lost);
      || after == disk
      || IsNew(after, disk, cache, super, table, n)
      || IsDirty(after)
  {
    hide Run, Half, Kept, Flushed;
    var head := [Write(SUPER_LBA, Half(Marked(super, DIRTY), 0)), Flush];
    var body := BodyOps(cache, super, savedSuper, table, savedTable, n);
    var ops := FinishOps(cache, super, savedSuper, table, savedTable, n);
    var m := |body|;
    assert ops == head + body + CleanOps(super);
    if k <= 1 {
      CrashEarly(disk, super, k, lost);
      assert ops[..k] == head[..k];
    } else if k <= m + 3 {
      var rest := (body + [Flush])[..k - 2];
      assert ops[..k] == head + rest;
      BodyAvoids(cache, disk, super, savedSuper, table, savedTable, n);
      CrashDirty(disk, super, rest, lost);
    } else if k == m + 4 {
      BodyAvoids(cache, disk, super, savedSuper, table, savedTable, n);
      assert ops[..k] == head + (body + [Flush]) + [Write(SUPER_LBA, Half(Marked(super, CLEAN), 0))];
      CrashLast(disk, super, body, lost);
      if Crash(disk, ops[..k], lost) == Run(disk, ops) {
        CommitComplete(cache, disk, super, savedSuper, table, savedTable, n);
      }
    } else {
      assert ops[..k] == ops && ops[m + 4] == Flush;
      FlushedAtLeast(ops, m + 4);
      KeptAll(ops, 0, Flushed(ops), lost);
      CommitComplete(cache, disk, super, savedSuper, table, savedTable, n);
    }
  }

  lemma CrashEarly(disk: Disk, super: seq<Byte>, k: nat, lost: set<nat>)
    requires DiskOk(disk) && |super| == BLOCK && k <= 1
    ensures var after := Crash(disk, [Write(SUPER_LBA, Half(Marked(super, DIRTY), 0)), Flush][..k], lost);
      after == disk || IsDirty(after)
  {
    var w := Write(SUPER_LBA, Half(Marked(super, DIRTY), 0));
    var ops := [w, Flush][..k];
    if k == 0 {
      assert ops == [];
    } else {
      assert ops == [w] && [w][..0] == [];
      assert Kept(ops, 0, 0, lost) == if 0 in lost then [] else [w];
      RunIf(disk, true, SUPER_LBA, Half(Marked(super, DIRTY), 0));
      MarkedState(disk[SUPER_LBA := Half(Marked(super, DIRTY), 0)], super, DIRTY);
    }
  }

  /** Once the dirty marker is flushed, writes elsewhere cannot hide it. */
  lemma CrashDirty(disk: Disk, super: seq<Byte>, rest: seq<Op>, lost: set<nat>)
    requires DiskOk(disk) && |super| == BLOCK && Avoids(rest, SUPER_LBA)
    ensures IsDirty(Crash(disk, [Write(SUPER_LBA, Half(Marked(super, DIRTY), 0)), Flush] + rest, lost))
  {
    hide Run, Kept, Flushed, Half;
    var head := [Write(SUPER_LBA, Half(Marked(super, DIRTY), 0)), Flush];
    var ops := head + rest;
    assert ops[1] == Flush;
    FlushedAtLeast(ops, 1);
    KeptConcat(head, rest, 0, Flushed(ops), lost);
    KeptAll(head, 0, Flushed(ops), lost);
    KeptAvoids(rest, 2, Flushed(ops), lost, SUPER_LBA);
    RunAppend(disk, head, Kept(rest, 2, Flushed(ops), lost));
    HeadRun(disk, super);
    RunAvoids(Run(disk, head), Kept(rest, 2, Flushed(ops), lost), SUPER_LBA);
    MarkedState(Crash(disk, ops, lost), super, DIRTY);
  }

  /** The last state write either happened, and the commit is complete, or did not. */
  lemma CrashLast(disk: Disk, super: seq<Byte>, body: seq<Op>, lost: set<nat>)
    requires DiskOk(disk) && |super| == BLOCK && Avoids(body, SUPER_LBA)
    ensures var head := [Write(SUPER_LBA, Half(Marked(super, DIRTY), 0)), Flush];
      var clean := [Write(SUPER_LBA, Half(Marked(super, CLEAN), 0))];
      var after := Crash(disk, head + (body + [Flush]) + clean, lost);
      IsDirty(after) || after == Run(disk, head + body + CleanOps(super))
  {
    hide Run, Kept, Flushed, Half;
    var head := [Write(SUPER_LBA, Half(Marked(super, DIRTY), 0)), Flush];
    var clean := [Write(SUPER_LBA, Half(Marked(super, CLEAN), 0))];
    var kept := head + (body + [Flush]);
    var ops := kept + clean;
    var m := |kept|;
    assert ops[m - 1] == Flush;
    FlushedAtLeast(ops, m - 1);
    KeptConcat(kept, clean, 0, Flushed(ops), lost);
    KeptAll(kept, 0, Flushed(ops), lost);
    if Crash(disk, ops, lost) != Run(disk, ops) {
      LostOne(clean, m, Flushed(ops), lost);
      assert kept + [] == kept;
      RunAppend(disk, head, body + [Flush]);
      HeadRun(disk, super);
      RunAvoids(Run(disk, head), body + [Flush], SUPER_LBA);
      MarkedState(Run(disk, kept), super, DIRTY);
    } else {
      assert ops == (head + body) + CleanOps(super)[..2];
      RunAppend(disk, head + body, CleanOps(super)[..2]);
      RunAppend(disk, head + body, CleanOps(super));
      CleanRun(Run(disk, head + body), super);
    }
  }

  lemma LostOne(ops: seq<Op>, first: nat, flushed: nat, lost: set<nat>)
    requires |ops| == 1
    ensures Kept(ops, first, flushed, lost) == [] || Kept(ops, first, flushed, lost) == ops
  {
    assert ops[..0] == [];
  }

  /** A volume whose state field says it was being written. */
  ghost predicate IsDirty(disk: Disk) {
    |disk| > SUPER_LBA && |disk[SUPER_LBA]| == SECTOR && State(disk) == DIRTY
  }

  /** The second half of the superblock does not hold the state field. */
  lemma MarkedTail(super: seq<Byte>, state: nat)
    requires |super| == BLOCK && state < 0x1_0000
    ensures Half(Marked(super, state), 1) == Half(super, 1)
    ensures forall other :: 0 <= other < 0x1_0000 ==> Marked(Marked(super, state), other) == Marked(super, other)
  {
    forall other | 0 <= other < 0x1_0000 ensures Marked(Marked(super, state), other) == Marked(super, other) {
    }
  }

  lemma FlushedEnd(a: seq<Op>, b: seq<Op>)
    requires b != [] && b[|b| - 1].Flush?
    ensures Flushed(a + b) == |a + b|
  {
  }

  lemma {:induction false} CacheOpsPrefix(cache: seq<Entry>, i: nat)
    requires i <= |cache| && forall j :: 0 <= j < |cache| ==> |cache[j].data| == BLOCK && |cache[j].before| == BLOCK
    ensures CacheOps(cache[..i]) <= CacheOps(cache)
    decreases |cache| - i
  {
    if i == |cache| {
      assert cache[..i] == cache;
    } else {
      CacheOpsPrefix(cache, i + 1);
      assert cache[..i + 1][..i] == cache[..i];
    }
  }

  lemma CacheOpsStep(cache: seq<Entry>, i: nat)
    requires i < |cache| && forall j :: 0 <= j < |cache| ==> |cache[j].data| == BLOCK && |cache[j].before| == BLOCK
    ensures CacheOps(cache[..i + 1]) == CacheOps(cache[..i]) + EntryOps(cache[i])
    ensures CacheOps(cache[..i + 1]) <= CacheOps(cache)
  {
    assert cache[..i + 1][..i] == cache[..i];
    CacheOpsPrefix(cache, i + 1);
  }

  lemma {:induction false} DescriptorOpsPrefix(table: seq<Byte>, saved: seq<Byte>, s: nat, n: nat)
    requires s <= n && n * SECTOR <= |table| == |saved|
    ensures DescriptorOps(table, saved, s) <= DescriptorOps(table, saved, n)
    decreases n - s
  {
    if s < n {
      DescriptorOpsPrefix(table, saved, s + 1, n);
    }
  }

  lemma DescriptorOpsStep(table: seq<Byte>, saved: seq<Byte>, s: nat, n: nat)
    requires s < n && n * SECTOR <= |table| == |saved|
    ensures DescriptorOps(table, saved, s + 1) == DescriptorOps(table, saved, s) + SectorOps(table, saved, s)
    ensures DescriptorOps(table, saved, s + 1) <= DescriptorOps(table, saved, n)
  {
    DescriptorOpsPrefix(table, saved, s + 1, n);
  }

  /** What a commit cut short can leave behind. */
  ghost predicate Recoverable(after: Disk, disk: Disk, cache: seq<Entry>, super: seq<Byte>, table: seq<Byte>, n: nat)
    requires |super| == BLOCK && n * SECTOR <= |table|
    requires forall i :: 0 <= i < |cache| ==> |cache[i].data| == BLOCK
  {
    after == disk || IsNew(after, disk, cache, super, table, n) || IsDirty(after)
  }

  lemma CrashAnywhere(cache: seq<Entry>, disk: Disk, super: seq<Byte>, savedSuper: seq<Byte>,
                      table: seq<Byte>, savedTable: seq<Byte>, n: nat, issued: seq<Op>)
    requires Mirrors(disk, cache, savedSuper, savedTable, n) && |super| == BLOCK && |table| == |savedTable|
    requires issued <= FinishOps(cache, super, savedSuper, table, savedTable, n)
    ensures forall k, lost: set<nat> :: 0 <= k <= |issued| ==>
      Recoverable(Crash(disk, issued[..k], lost), disk, cache, super, table, n)
  {
    forall k, lost: set<nat> | 0 <= k <= |issued|
      ensures Recoverable(Crash(disk, issued[..k], lost), disk, cache, super, table, n)
    {
      assert issued[..k] == FinishOps(cache, super, savedSuper, table, savedTable, n)[..k];
      CrashPrefix(cache, disk, super, savedSuper, table, savedTable, n, k, lost);
    }
  }

  lemma FinishParts(cache: seq<Entry>, super: seq<Byte>, savedSuper: seq<Byte>, table: seq<Byte>, savedTable: seq<Byte>, n: nat)
    requires forall i :: 0 <= i < |cache| ==> |cache[i].data| == BLOCK && |cache[i].before| == BLOCK
    requires |super| == |savedSuper| == BLOCK && n * SECTOR <= |table| == |savedTable|
    ensures FinishOps(cache, super, savedSuper, table, savedTable, n)
         == DirtyOps(super) + BodyOps(cache, super, savedSuper, table, savedTable, n) + CleanOps(super)
  {
  }

  function DirtyOps(super: seq<Byte>): seq<Op>
    requires |super| == BLOCK
  {
    [Write(SUPER_LBA, Half(Marked(super, DIRTY), 0)), Flush]
  }
}
