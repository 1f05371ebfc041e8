/** fs.c: a directory as an inode, and what changing one of its records does to the volume. */
module Ext2Dirs {
  import opened Bytes
  import opened Ext2Pools
  import opened Ext2Layout
  import opened Ext2Contents
  import opened Ext2Steps
  import opened Ext2Directory
  import opened Ext2Names
  import opened Ext2Tree
  import opened Ext2Counts

  /** All that an inode can map. */
  function Mapped(v: Vol, n: nat): (r: seq<Byte>)
    requires TablesOk(v.nodes, v.data) && 1 <= n <= |v.nodes|
    ensures |r| == MAX_FILE
  {
    seq(MAX_FILE, off requires 0 <= off < MAX_FILE => Raw(v, n, off))
  }

  /** Block `i` of an inode, as bytes. */
  function DirBlock(v: Vol, n: nat, i: nat): Block
    requires TablesOk(v.nodes, v.data) && 1 <= n <= |v.nodes| && i < FILE_BLOCKS
  {
    Mapped(v, n)[BLOCK * i..BLOCK * i + BLOCK]
  }

  function DirBlocks(v: Vol, n: nat): (r: seq<Block>)
    requires TablesOk(v.nodes, v.data) && 1 <= n <= |v.nodes| && v.nodes[n - 1].size <= MAX_FILE
    ensures |r| == v.nodes[n - 1].size / BLOCK
  {
    seq(v.nodes[n - 1].size / BLOCK, i requires 0 <= i < v.nodes[n - 1].size / BLOCK => DirBlock(v, n, i))
  }

  function FormatOf(v: Vol, filetype: bool): Format {
    Format(filetype, |v.nodes|)
  }

  /** An inode without an indirect block, as every directory must be. */
  ghost predicate Plain(v: Vol, n: nat)
    requires TablesOk(v.nodes, v.data) && 1 <= n <= |v.nodes|
  {
    Ptr(v.nodes, v.data, Slot(n, INDIRECT_SLOT)) == 0
  }

  /** Inode `n` is a well-formed directory. Blocks may be mapped past its size. */
  ghost predicate DirAt(v: Vol, filetype: bool, n: nat)
    requires v.Shape()
  {
    && v.Live(n) && Kind(v.nodes[n - 1].mode) == DIR_MODE && v.nodes[n - 1].links != 0
    && v.nodes[n - 1].size % BLOCK == 0 && v.nodes[n - 1].size <= DIRECT * BLOCK
    && Plain(v, n)
    && DirOk(FormatOf(v, filetype), DirBlocks(v, n))
  }

  /** The names a directory binds. */
  ghost function DirMap(v: Vol, filetype: bool, n: nat): map<seq<Byte>, Binding>
    requires v.Shape() && DirAt(v, filetype, n)
  {
    Dir(FormatOf(v, filetype), DirBlocks(v, n))
  }

  /** Byte `o` of block `i`. */
  lemma DirByte(v: Vol, n: nat, i: nat, o: nat)
    requires v.Shape() && 1 <= n <= |v.nodes| && i < FILE_BLOCKS && o < BLOCK
    ensures BLOCK * i + o < MAX_FILE && DirBlock(v, n, i)[o] == Raw(v, n, BLOCK * i + o)
  {
    hide Raw, TablesOk, GroupSize;
  }

  /** Inodes that read the same have the same blocks. */
  lemma SameBlock(v: Vol, w: Vol, n: nat, i: nat)
    requires v.Shape() && w.Shape() && 1 <= n <= |v.nodes| == |w.nodes| && i < FILE_BLOCKS
    requires SameRaw(v, w, n)
    ensures DirBlock(w, n, i) == DirBlock(v, n, i)
  {
    hide Raw, TablesOk, GroupSize, DirBlock;
    forall o | 0 <= o < BLOCK ensures DirBlock(w, n, i)[o] == DirBlock(v, n, i)[o] {
      DirByte(v, n, i, o);
      DirByte(w, n, i, o);
    }
  }

  /** One byte of a block of an inode in which exactly block `i` became `c`. */
  lemma SplicedByte(v: Vol, w: Vol, n: nat, i: nat, c: Block, j: nat, o: nat)
    requires v.Shape() && w.Shape() && 1 <= n <= |v.nodes| == |w.nodes|
    requires i < FILE_BLOCKS && j < FILE_BLOCKS && o < BLOCK && Spliced(v, w, n, BLOCK * i, c)
    ensures DirBlock(w, n, j)[o] == if j == i then c[o] else DirBlock(v, n, j)[o]
  {
    hide Raw, TablesOk, GroupSize, DirBlock;
    DirByte(v, n, j, o);
    DirByte(w, n, j, o);
    if j == i {
      assert BLOCK * j + o - BLOCK * i == o;
    } else if j < i {
      assert BLOCK * j + o < BLOCK * i;
    } else {
      assert BLOCK * j + o >= BLOCK * i + BLOCK;
    }
  }

  lemma SplicedBlock(v: Vol, w: Vol, n: nat, i: nat, c: Block, j: nat)
    requires v.Shape() && w.Shape() && 1 <= n <= |v.nodes| == |w.nodes|
    requires i < FILE_BLOCKS && j < FILE_BLOCKS && Spliced(v, w, n, BLOCK * i, c)
    ensures DirBlock(w, n, j) == if j == i then c else DirBlock(v, n, j)
  {
    hide Raw, TablesOk, GroupSize, DirBlock, Spliced;
    var r := if j == i then c else DirBlock(v, n, j);
    forall o | 0 <= o < BLOCK ensures DirBlock(w, n, j)[o] == r[o] {
      SplicedByte(v, w, n, i, c, j, o);
    }
  }

  lemma DirBlocksSame(v: Vol, w: Vol, n: nat)
    requires v.Shape() && w.Shape() && 1 <= n <= |v.nodes| == |w.nodes| && Same(v, w, n) && v.nodes[n - 1].size <= MAX_FILE
    ensures DirBlocks(w, n) == DirBlocks(v, n)
  {
    hide Raw, TablesOk, GroupSize, DirBlock, SameRaw;
    forall i | 0 <= i < v.nodes[n - 1].size / BLOCK ensures DirBlock(w, n, i) == DirBlock(v, n, i) {
      SameBlock(v, w, n, i);
    }
  }

  /** A directory that an operation leaves alone still is one, with the same names. */
  lemma DirKept(v: Vol, w: Vol, filetype: bool, n: nat)
    requires v.Shape() && w.Shape() && |v.nodes| == |w.nodes| && DirAt(v, filetype, n)
    requires w.Live(n) && Same(v, w, n) && SamePtrs(v, w, n)
    ensures DirAt(w, filetype, n) && DirMap(w, filetype, n) == DirMap(v, filetype, n)
    ensures DirBlocks(w, n) == DirBlocks(v, n)
  {
    hide Raw, TablesOk, GroupSize, Ptr, DirOk, DirBlocks, InodeUsed;
    DirBlocksSame(v, w, n);
  }

  lemma DirBlockIs(v: Vol, n: nat, i: nat)
    requires v.Shape() && 1 <= n <= |v.nodes| && i < FILE_BLOCKS && 0 < FileBlock(v.nodes, v.data, n, i) < |v.data|
    ensures DirBlock(v, n, i) == v.data[FileBlock(v.nodes, v.data, n, i)]
  {
    hide FileBlock, GroupSize;
    forall o | 0 <= o < BLOCK ensures DirBlock(v, n, i)[o] == v.data[FileBlock(v.nodes, v.data, n, i)][o] {
      assert (BLOCK * i + o) / BLOCK == i && (BLOCK * i + o) % BLOCK == o;
      assert DirBlock(v, n, i)[o] == Raw(v, n, BLOCK * i + o);
    }
  }

  /** A hole is no block of records. */
  lemma HoleUntiled(v: Vol, f: Format, n: nat, i: nat)
    requires v.Shape() && 1 <= n <= |v.nodes| && i < FILE_BLOCKS && Tiled(f, DirBlock(v, n, i), 0, BLOCK)
    ensures FileBlock(v.nodes, v.data, n, i) != 0
  {
    hide FileBlock, GroupSize;
    if FileBlock(v.nodes, v.data, n, i) == 0 {
      forall o | 0 <= o < BLOCK ensures DirBlock(v, n, i)[o] == 0 {
        assert (BLOCK * i + o) / BLOCK == i;
        assert DirBlock(v, n, i)[o] == Raw(v, n, BLOCK * i + o);
      }
    }
  }

  /** Where the blocks of a directory are. */
  lemma DirHas(v: Vol, filetype: bool, n: nat, i: nat)
    requires v.Ok({}) && DirAt(v, filetype, n) && i < v.nodes[n - 1].size / BLOCK
    ensures 0 < FileBlock(v.nodes, v.data, n, i) < |v.data|
    ensures DirBlocks(v, n)[i] == v.data[FileBlock(v.nodes, v.data, n, i)]
  {
    hide Raw, TablesOk, GroupSize, Ptr, InodeUsed, FileBlock, Vol.Owned, Vol.PoolsOk, Vol.Counted, Tiled, Distinct, Entries, DirBlock;
    assert Tiled(FormatOf(v, filetype), DirBlocks(v, n)[i], 0, BLOCK);
    HoleUntiled(v, FormatOf(v, filetype), n, i);
    FileOwned(v, {}, n, i);
    DirBlockIs(v, n, i);
  }

  lemma PokeAll(b: Block, c: Block)
    ensures Splice(b, 0, c) == c
  {
  }

  /** Replacing one block of a directory by one that keeps it well formed. */
  lemma DirPoked(v: Vol, filetype: bool, n: nat, i: nat, c: Block)
    requires v.Ok({}) && DirAt(v, filetype, n) && i < v.nodes[n - 1].size / BLOCK
    requires DirOk(FormatOf(v, filetype), DirBlocks(v, n)[i := c])
    ensures FileBlock(v.nodes, v.data, n, i) < |v.data|
    ensures var w := v.(data := v.data[FileBlock(v.nodes, v.data, n, i) := c]);
      && w.Ok({}) && Others(v, w, n) && DirAt(w, filetype, n) && DirBlocks(w, n) == DirBlocks(v, n)[i := c]
  {
    hide Raw, TablesOk, GroupSize, Ptr, InodeUsed, FileBlock, Vol.Owned, Vol.PoolsOk, Vol.Counted, DirOk, Others, Splice, DirBlock;
    DirHas(v, filetype, n, i);
    var b := FileBlock(v.nodes, v.data, n, i);
    PokeStep(v, n, i, 0, c);
    PokeAll(v.data[b], c);
    var w := v.(data := v.data[b := c]);
    assert w == Poked(v, b, 0, c);
    SplicedBlocks(v, w, n, i, c);
  }

  lemma SplicedBlocks(v: Vol, w: Vol, n: nat, i: nat, c: Block)
    requires v.Shape() && w.Shape() && 1 <= n <= |v.nodes| == |w.nodes| && v.nodes[n - 1].size == w.nodes[n - 1].size <= MAX_FILE
    requires i < v.nodes[n - 1].size / BLOCK && Spliced(v, w, n, BLOCK * i, c)
    ensures DirBlocks(w, n) == DirBlocks(v, n)[i := c]
  {
    hide Raw, TablesOk, GroupSize, DirBlock, Spliced;
    forall j | 0 <= j < v.nodes[n - 1].size / BLOCK ensures DirBlock(w, n, j) == if j == i then c else DirBlock(v, n, j) {
      SplicedBlock(v, w, n, i, c, j);
    }
  }

  /** A directory that grew by one block. */
  lemma GrownBlocks(v: Vol, w: Vol, x: Vol, n: nat, c: Block)
    requires v.Shape() && w.Shape() && 1 <= n <= |v.nodes| == |w.nodes| && v.nodes[n - 1].size % BLOCK == 0 && v.nodes[n - 1].size + BLOCK <= MAX_FILE
    requires Spliced(v, w, n, v.nodes[n - 1].size, c)
    requires x == Sized(w, n, v.nodes[n - 1].size + BLOCK) && x.Shape() && SameRaw(w, x, n)
    ensures DirBlocks(x, n) == DirBlocks(v, n) + [c]
  {
    hide Raw, TablesOk, GroupSize, DirBlock, Spliced, SameRaw;
    var count := v.nodes[n - 1].size / BLOCK;
    assert v.nodes[n - 1].size == BLOCK * count;
    forall j | 0 <= j <= count ensures DirBlock(x, n, j) == if j == count then c else DirBlock(v, n, j) {
      SameBlock(w, x, n, j);
      SplicedBlock(v, w, n, count, c, j);
    }
  }

  /** Filling a direct slot makes no indirect block. */
  lemma FilledPlain(v: Vol, w: Vol, n: nat, count: nat, b: nat)
    requires v.Shape() && w.Shape() && SameFrame(v, w) && v.Live(n) && Plain(v, n) && count < DIRECT
    requires Repointed(v, w, Slot(n, count), b)
    ensures Plain(w, n)
  {
    hide Ptr, TablesOk, GroupSize, InodeUsed;
    assert Slot(n, INDIRECT_SLOT).k != count;
  }

  /** insert() with no room: block `b` was attached at the end, written whole, and counted. */
  lemma DirGrew(v: Vol, w: Vol, x: Vol, filetype: bool, n: nat, b: nat, c: Block)
    requires v.Ok({}) && DirAt(v, filetype, n) && v.nodes[n - 1].size / BLOCK < DIRECT
    requires w.Ok({}) && |v.nodes| == |w.nodes| && v.geo == w.geo && Kept(v, w, n) && Repointed(v, w, Slot(n, v.nodes[n - 1].size / BLOCK), b) && b != 0
    requires DirOk(FormatOf(v, filetype), DirBlocks(v, n) + [c])
    requires b < |w.data| && x == Sized(w.(data := w.data[b := c]), n, v.nodes[n - 1].size + BLOCK)
    ensures x.Ok({}) && Others(v, x, n) && DirAt(x, filetype, n)
    ensures DirBlocks(x, n) == DirBlocks(v, n) + [c] && SameMeta(v.nodes[n - 1], x.nodes[n - 1])
  {
    hide Raw, TablesOk, GroupSize, Ptr, InodeUsed, FileBlock, Vol.Owned, Vol.PoolsOk, Vol.Counted, DirOk, Others, Splice, DirBlocks, Repointed, Plain, Kept, SameRaw, Spliced, SamePtrs;
    var count := v.nodes[n - 1].size / BLOCK;
    KeptFrame(v, w, n);
    FilledIs(v, w, n, count, b);
    FilledPlain(v, w, n, count, b);
    FileOwned(w, {}, n, count);
    PokeStep(w, n, count, 0, c);
    PokeAll(w.data[b], c);
    var y := w.(data := w.data[b := c]);
    assert y == Poked(w, b, 0, c);
    SplicedKept(v, w, y, n, BLOCK * count, c);
    SizedStep(y, n, v.nodes[n - 1].size + BLOCK);
    OthersChain(v, w, y, n);
    OthersChain(v, y, x, n);
    GrownBlocks(v, y, x, n, c);
    PtrsChain(w, y, x, n);
    PlainSame(w, x, n);
  }

  lemma KeptFrame(v: Vol, w: Vol, n: nat)
    requires v.Shape() && w.Shape() && 1 <= n <= |v.nodes| == |w.nodes| && Kept(v, w, n)
    ensures SameFrame(v, w) && Others(v, w, n) && SameRaw(v, w, n)
    ensures SameMeta(v.nodes[n - 1], w.nodes[n - 1]) && v.nodes[n - 1].size == w.nodes[n - 1].size
  {
  }

  lemma FilledIs(v: Vol, w: Vol, n: nat, count: nat, b: nat)
    requires v.Shape() && w.Shape() && SameFrame(v, w) && v.Live(n) && count < DIRECT && Repointed(v, w, Slot(n, count), b)
    ensures FileBlock(w.nodes, w.data, n, count) == b
  {
    hide Ptr, TablesOk, GroupSize, InodeUsed;
    assert Slot(n, count) == SlotOf(n, count);
  }

  lemma PlainSame(v: Vol, w: Vol, n: nat)
    requires v.Shape() && w.Shape() && 1 <= n <= |v.nodes| == |w.nodes| && SamePtrs(v, w, n) && Plain(v, n)
    ensures Plain(w, n)
  {
    hide Ptr, TablesOk, GroupSize;
  }

  lemma SplicedKept(v: Vol, w: Vol, y: Vol, n: nat, offset: nat, c: seq<Byte>)
    requires v.Shape() && w.Shape() && y.Shape() && 1 <= n <= |v.nodes| == |w.nodes| == |y.nodes|
    requires SameRaw(v, w, n) && Spliced(w, y, n, offset, c)
    ensures Spliced(v, y, n, offset, c)
  {
    hide Raw, TablesOk, GroupSize;
    forall off: nat | off < MAX_FILE ensures Raw(y, n, off) == if offset <= off < offset + |c| then c[off - offset] else Raw(v, n, off) {
      assert Raw(w, n, off) == Raw(v, n, off);
    }
  }

  /** An inode that was just cleared reads as an empty file. */
  lemma BlankEmpty(v: Vol, n: nat)
    requires v.Shape() && 1 <= n <= |v.nodes| && Blank(v.nodes[n - 1]) && v.nodes[n - 1].size == 0
    ensures Exactly(v, n, [])
  {
  }

  lemma ExactSame(v: Vol, w: Vol, n: nat, bytes: seq<Byte>)
    requires v.Shape() && w.Shape() && 1 <= n <= |v.nodes| == |w.nodes| && Exactly(v, n, bytes) && Same(v, w, n)
    ensures Exactly(w, n, bytes)
  {
    hide Raw, TablesOk, GroupSize;
    forall off: nat | off < MAX_FILE ensures Raw(w, n, off) == if off < |bytes| then bytes[off] else 0 {
      assert Raw(w, n, off) == Raw(v, n, off);
    }
  }

  /** A directory outside what an operation touches. */
  lemma DirOutside(v: Vol, w: Vol, filetype: bool, n: nat, except: set<nat>)
    requires v.Shape() && w.Shape() && DirAt(v, filetype, n) && Files(v, w, except) && n !in except
    ensures DirAt(w, filetype, n) && DirMap(w, filetype, n) == DirMap(v, filetype, n) && Same(v, w, n)
  {
    hide Raw, TablesOk, GroupSize, Ptr, DirOk, Dir, DirBlocks, InodeUsed, SameRaw, SamePtrs, SameMeta;
    DirKept(v, w, filetype, n);
  }

  /** What create(name, FILE_MODE) leaves: a new empty file under a new name. */
  ghost predicate Created(v: Vol, w: Vol, filetype: bool, dir: nat, name: seq<Byte>, n: nat)
    requires v.Shape() && w.Shape() && DirAt(v, filetype, dir)
  {
    && !v.Live(n) && w.Live(n) && n != dir && n >= v.geo.firstInode
    && Files(v, w, {dir, n}) && DirAt(w, filetype, dir) && SameMeta(v.nodes[dir - 1], w.nodes[dir - 1])
    && name !in DirMap(v, filetype, dir) && DirMap(w, filetype, dir) == DirMap(v, filetype, dir)[name := Binding(n, if filetype then 1 else 0)]
  }

  /** The steps of create(): the inode is born as `v1`, named in `v2`. */
  lemma CreateSteps(v: Vol, v1: Vol, v2: Vol, v3: Vol, filetype: bool, dir: nat, name: seq<Byte>, n: nat, node: Inode)
    requires v.Shape() && v1.Ok({}) && v3.Shape() && DirAt(v, filetype, dir)
    requires !v.Live(n) && v1.Live(n) && Files(v, v1, {n}) && v1.nodes[n - 1] == BlankNode(0, 0, 0) && n >= v.geo.firstInode
    requires node.ptr == BlankNode(0, 0, 0).ptr && node.sectors == 0 && node.size == 0
    requires v2 == v1.(nodes := v1.nodes[n - 1 := node])
    ensures v2.Ok({}) && v2.Live(n) && n != dir && DirAt(v2, filetype, dir) && DirMap(v2, filetype, dir) == DirMap(v, filetype, dir)
    ensures Files(v, v2, {n}) && Same(v, v2, dir) && Exactly(v2, n, [])
  {
    hide Raw, TablesOk, GroupSize, Ptr, DirOk, Dir, DirBlocks, InodeUsed, SameRaw, SamePtrs, Vol.Owned, Vol.Counted, Vol.PoolsOk, DirAt, DirMap, Files, Others;
    assert n != dir by { DirLive(v, filetype, dir); }
    NodeStep(v1, n, node);
    OthersFiles(v1, v2, n);
    FilesChain(v, v1, v2, {n}, {n});
    assert {n} + {n} == {n};
    DirOutside(v, v2, filetype, dir, {n});
    BlankEmpty(v2, n);
  }

  lemma DirLive(v: Vol, filetype: bool, dir: nat)
    requires v.Shape() && DirAt(v, filetype, dir)
    ensures v.Live(dir) && Kind(v.nodes[dir - 1].mode) == DIR_MODE && v.nodes[dir - 1].size <= DIRECT * BLOCK
  {
  }

  lemma CreatedFrom(v: Vol, v2: Vol, v3: Vol, filetype: bool, dir: nat, name: seq<Byte>, n: nat)
    requires v.Shape() && v2.Shape() && v3.Shape()
    requires 1 <= n <= |v.nodes| == |v2.nodes| == |v3.nodes| && 1 <= dir <= |v.nodes|
    requires DirAt(v, filetype, dir) && DirAt(v2, filetype, dir) && DirAt(v3, filetype, dir)
    requires DirMap(v2, filetype, dir) == DirMap(v, filetype, dir) && Same(v, v2, dir)
    requires !v.Live(n) && v2.Live(n) && n != dir && n >= v.geo.firstInode && Files(v, v2, {n}) && Others(v2, v3, dir)
    requires name !in DirMap(v2, filetype, dir) && DirMap(v3, filetype, dir) == DirMap(v2, filetype, dir)[name := Binding(n, if filetype then 1 else 0)]
    requires SameMeta(v2.nodes[dir - 1], v3.nodes[dir - 1])
    ensures Created(v, v3, filetype, dir, name, n) && Same(v2, v3, n)
  {
    hide Raw, TablesOk, GroupSize, Ptr, DirOk, Dir, DirBlocks, InodeUsed, SameRaw, SamePtrs, DirAt, DirMap;
    assert v3.Live(n) && Same(v2, v3, n);
    OthersFiles(v2, v3, dir);
    hide Files, Others;
    FilesChain(v, v2, v3, {n}, {dir});
    assert {n} + {dir} == {dir, n};
    DirLive(v, filetype, dir);
  }

  lemma OthersFrame(v: Vol, w: Vol, n: nat)
    requires v.Shape() && w.Shape() && Others(v, w, n)
    ensures SameFrame(v, w) && forall m: nat :: v.Live(m) <==> w.Live(m)
  {
  }

  lemma FilesFrame(v: Vol, w: Vol, except: set<nat>)
    requires v.Shape() && w.Shape() && Files(v, w, except)
    ensures v.geo == w.geo && |v.nodes| == |w.nodes|
  {
  }

  lemma FilesWeaken(v: Vol, w: Vol, a: set<nat>, b: set<nat>)
    requires v.Shape() && w.Shape() && Files(v, w, a) && a <= b
    ensures Files(v, w, b)
  {
    hide Raw, Ptr, TablesOk, InodeUsed, SameRaw, SamePtrs, GroupSize, SameMeta;
  }

  /** The directory counts of the group descriptors say nothing about where things are. */
  lemma DirsStep(v: Vol, g: nat, dirs: nat)
    requires v.Ok({}) && g < |v.groups|
    ensures var w := v.(groups := v.groups[g := v.groups[g].(dirs := dirs)]);
      w.Ok({}) && Files(v, w, {})
  {
    hide Ptr, BlockUsed, InodeUsed, Pool.Ok, GroupSize, TablesOk, BackupGroup;
    var w := v.(groups := v.groups[g := v.groups[g].(dirs := dirs)]);
    assert forall b: nat :: DataBlock(w.geo, w.groups, b) == DataBlock(v.geo, v.groups, b);
    forall m: nat | v.Live(m) ensures Same(v, w, m) && SamePtrs(v, w, m) {
      SameTables(v, w, m);
    }
  }

  lemma SameTables(v: Vol, w: Vol, m: nat)
    requires v.Shape() && w.Shape() && v.nodes == w.nodes && v.data == w.data && 1 <= m <= |v.nodes|
    ensures Same(v, w, m) && SamePtrs(v, w, m)
  {
    hide Ptr, TablesOk, GroupSize;
  }

  const DOT: seq<Byte> := [46]
  const DOTDOT: seq<Byte> := [46, 46]

  /** The block of a new directory: itself and its parent. */
  function NewDirBlock(f: Format, n: Word, parent: Word): (r: Block) {
    Record(f, n, 12, DOT, 2) + Record(f, parent, BLOCK - 12, DOTDOT, 2)
  }

  /** What a new directory binds: "." and "..", both recorded as directories. */
  function NewNames(filetype: bool, n: nat, parent: nat): map<seq<Byte>, Binding> {
    map[[46] := Binding(n, if filetype then 2 else 0), [46, 46] := Binding(parent, if filetype then 2 else 0)]
  }

  lemma NewDirLists(f: Format, n: Word, parent: Word)
    requires 0 < n <= f.inodes && 0 < parent <= f.inodes
    ensures DirOk(f, [NewDirBlock(f, n, parent)])
    ensures Dir(f, [NewDirBlock(f, n, parent)]) == NewNames(f.filetype, n, parent)
  {
    hide Record, Tiled, List;
    var b := NewDirBlock(f, n, parent);
    assert b[0..0 + 12] == Record(f, n, 12, DOT, 2) && b[12..12 + (BLOCK - 12)] == Record(f, parent, BLOCK - 12, DOTDOT, 2);
    RecordReads(f, b, 0, n, 12, DOT, 2);
    RecordReads(f, b, 12, parent, BLOCK - 12, DOTDOT, 2);
    TiledJoin(f, b, 0, 12, BLOCK);
    assert [b][..0] == [];
    var code := Code(f, 2);
    var x, y := [Dirent(n, DOT, code)], [Dirent(parent, DOTDOT, code)];
    assert Entries(f, [b]) == Entries(f, []) + List(f, b, 0, BLOCK) == x + y;
    BindOne(x[0]);
    BindOne(y[0]);
    assert DOT != DOTDOT by { assert |DOT| != |DOTDOT|; }
    BindJoin(x, y);
  }

  lemma BindOne(e: Dirent)
    ensures Bindings([e]) == map[e.name := Binding(e.ino, e.code)] && Distinct([e])
  {
    assert [e][..0] == [];
  }

  /** A blank inode that got one block written whole, a size and a mode is a directory. */
  lemma FirstBlock(v: Vol, w: Vol, x: Vol, filetype: bool, n: nat, b: nat, c: Block)
    requires v.Ok({}) && v.Live(n) && Exactly(v, n, []) && Kind(v.nodes[n - 1].mode) == DIR_MODE && v.nodes[n - 1].links != 0
    requires Plain(v, n) && w.Ok({}) && |v.nodes| == |w.nodes| && v.geo == w.geo && Kept(v, w, n) && Repointed(v, w, Slot(n, 0), b) && b != 0
    requires DirOk(FormatOf(v, filetype), [c]) && b < |w.data| && x == Sized(w.(data := w.data[b := c]), n, BLOCK)
    ensures x.Ok({}) && Others(v, x, n) && DirAt(x, filetype, n) && DirBlocks(x, n) == [c] && SameMeta(v.nodes[n - 1], x.nodes[n - 1])
  {
    hide Raw, TablesOk, GroupSize, Ptr, InodeUsed, FileBlock, Vol.Owned, Vol.PoolsOk, Vol.Counted, DirOk, Others, Splice, DirBlocks, Repointed, Plain, Kept, SameRaw, Spliced, SamePtrs;
    KeptFrame(v, w, n);
    FilledIs(v, w, n, 0, b);
    FilledPlain(v, w, n, 0, b);
    FileOwned(w, {}, n, 0);
    PokeStep(w, n, 0, 0, c);
    PokeAll(w.data[b], c);
    var y := w.(data := w.data[b := c]);
    assert y == Poked(w, b, 0, c);
    SplicedKept(v, w, y, n, 0, c);
    SizedStep(y, n, BLOCK);
    OthersChain(v, w, y, n);
    OthersChain(v, y, x, n);
    GrownBlocks(v, y, x, n, c);
    NoBlocksYet(v, n);
    assert [] + [c] == [c];
    PtrsChain(w, y, x, n);
    PlainSame(w, x, n);
    assert x.nodes[n - 1].size / BLOCK == 1;
  }

  lemma NoBlocksYet(v: Vol, n: nat)
    requires v.Shape() && 1 <= n <= |v.nodes| && v.nodes[n - 1].size == 0
    ensures DirBlocks(v, n) == []
  {
  }

  lemma BlankPlain(v: Vol, n: nat)
    requires TablesOk(v.nodes, v.data) && 1 <= n <= |v.nodes| && Blank(v.nodes[n - 1])
    ensures Plain(v, n) && Ptr(v.nodes, v.data, Slot(n, 0)) == 0
  {
  }

  // ------------------------------------------------------------ supported()

  /** The block checks of supported() never reject a live inode of a consistent volume: its
      blocks are data blocks in use, no two pointers name the same one, and the block count is
      exact. */
  lemma BlocksSupported(v: Vol, n: nat)
    requires v.Ok({}) && v.Live(n)
    ensures v.nodes[n - 1].sectors == 2 * CountPtrs(v, n, SLOTS)
    ensures forall k :: 0 <= k < SLOTS && Ptr(v.nodes, v.data, Slot(n, k)) != 0 ==>
              DataBlock(v.geo, v.groups, Ptr(v.nodes, v.data, Slot(n, k))) && BlockUsed(v.geo, v.blocks, Ptr(v.nodes, v.data, Slot(n, k)))
    ensures forall j, k :: 0 <= j < k < SLOTS && Ptr(v.nodes, v.data, Slot(n, k)) != 0 ==>
              Ptr(v.nodes, v.data, Slot(n, j)) != Ptr(v.nodes, v.data, Slot(n, k))
  {
    hide Ptr, InodeUsed, TablesOk, DataBlock, BlockUsed, Vol.PoolsOk;
    CountOwned(v, n, SLOTS);
    AllBelow(v, n);
    forall k | 0 <= k < SLOTS && Ptr(v.nodes, v.data, Slot(n, k)) != 0
      ensures var b := Ptr(v.nodes, v.data, Slot(n, k)); b in v.owner && v.owner[b] == Slot(n, k) && DataBlock(v.geo, v.groups, b) && BlockUsed(v.geo, v.blocks, b)
    {
      OwnsIt(v, {}, Slot(n, k));
    }
  }
}
