/** fs.c: where things are on a volume, and who owns which block. */
module Ext2Layout {
  import opened Arithmetic
  import opened Bytes
  import opened Ext2Pools

  const BLOCK := 1024
  const DIRECT := 12
  /** Twelve direct blocks, and 256 named in the one singly indirect block. */
  const FILE_BLOCKS := 268
  const MAX_FILE := 268 * 1024

  /** Slots of an inode: 12 direct pointers, the indirect pointer, and the 256 pointers
      inside the indirect block. */
  const SLOTS := 269
  const INDIRECT_SLOT := 12

  datatype Geometry = Geometry(blocks: nat, perGroup: nat, inodesPerGroup: nat, firstInode: nat,
                               sparse: bool, descriptorBlocks: nat, tableBlocks: nat)

  /** A group descriptor without its free counts, which live in the pools. */
  datatype Group = Group(blockMap: nat, inodeMap: nat, table: nat, dirs: nat)

  datatype Inode = Inode(mode: nat, links: nat, size: nat, sectors: nat, ptr: seq<nat>, deleted: nat)

  /** power_of. */
  predicate PowerOf(n: nat, base: nat)
    requires base >= 2
  {
    if n > 1 && n % base == 0 then PowerOf(n / base, base) else n == 1
  }

  predicate BackupGroup(geo: Geometry, g: nat) {
    !geo.sparse || g == 0 || g == 1 || PowerOf(g, 3) || PowerOf(g, 5) || PowerOf(g, 7)
  }

  function GroupStart(geo: Geometry, g: nat): nat {
    1 + g * geo.perGroup
  }

  function GroupSize(geo: Geometry, g: nat): nat {
    if geo.blocks <= GroupStart(geo, g) then 0
    else if geo.blocks - GroupStart(geo, g) < geo.perGroup then geo.blocks - GroupStart(geo, g)
    else geo.perGroup
  }

  function BlockNo(geo: Geometry, g: nat, i: nat): nat {
    GroupStart(geo, g) + i
  }

  function GroupOf(geo: Geometry, b: nat): nat
    requires b > 0 && geo.perGroup > 0
  {
    (b - 1) / geo.perGroup
  }

  function IndexOf(geo: Geometry, b: nat): nat
    requires b > 0 && geo.perGroup > 0
  {
    (b - 1) % geo.perGroup
  }

  lemma BlockPlace(geo: Geometry, g: nat, i: nat)
    requires geo.perGroup > 0 && i < geo.perGroup
    ensures GroupOf(geo, BlockNo(geo, g, i)) == g && IndexOf(geo, BlockNo(geo, g, i)) == i
  {
    DivModUnique(BlockNo(geo, g, i) - 1, geo.perGroup, g, i);
  }

  /** The index the code computes by subtraction is the remainder. */
  lemma PlaceBlock(geo: Geometry, b: nat)
    requires geo.perGroup > 0 && 0 < b < geo.blocks
    ensures BlockNo(geo, GroupOf(geo, b), IndexOf(geo, b)) == b
    ensures IndexOf(geo, b) == b - GroupStart(geo, GroupOf(geo, b))
    ensures IndexOf(geo, b) < GroupSize(geo, GroupOf(geo, b))
  {
  }

  /** data_block: may a file or directory own this block? */
  predicate DataBlock(geo: Geometry, groups: seq<Group>, b: nat)
    requires geo.perGroup > 0
  {
    b != 0 && b < geo.blocks &&
    var g := GroupOf(geo, b);
    g < |groups| &&
    !(BackupGroup(geo, g) && b < GroupStart(geo, g) + 1 + geo.descriptorBlocks) &&
    b != groups[g].blockMap && b != groups[g].inodeMap &&
    !(groups[g].table <= b < groups[g].table + geo.tableBlocks)
  }

  datatype Slot = Slot(ino: nat, k: nat)

  /** The pointer in a slot; 0 is a hole. */
  function Ptr(nodes: seq<Inode>, data: seq<seq<Byte>>, s: Slot): nat
    requires TablesOk(nodes, data) && 1 <= s.ino <= |nodes| && s.k < SLOTS
  {
    var ptr := nodes[s.ino - 1].ptr;
    if s.k <= INDIRECT_SLOT then ptr[s.k]
    else if ptr[INDIRECT_SLOT] == 0 then 0
    else Load32(data[ptr[INDIRECT_SLOT]], 4 * (s.k - 13))
  }

  /** Every inode has its 13 pointers, indirect ones name a block, and blocks have their size. */
  ghost predicate TablesOk(nodes: seq<Inode>, data: seq<seq<Byte>>) {
    && (forall n :: 0 <= n < |nodes| ==> |nodes[n].ptr| == 13 && nodes[n].ptr[INDIRECT_SLOT] < |data|)
    && (forall b :: 0 <= b < |data| ==> |data[b]| == BLOCK)
  }

  /** The slot that holds block `index` of a file. */
  function SlotOf(ino: nat, index: nat): Slot {
    Slot(ino, if index < DIRECT then index else index + 1)
  }

  /** file_block. */
  function FileBlock(nodes: seq<Inode>, data: seq<seq<Byte>>, ino: nat, index: nat): nat
    requires TablesOk(nodes, data) && 1 <= ino <= |nodes| && index < FILE_BLOCKS
  {
    Ptr(nodes, data, SlotOf(ino, index))
  }

  // ------------------------------------------------------------ ownership

  ghost function OwnedBy(owner: map<nat, Slot>, ino: nat): set<nat> {
    set b | b in owner && owner[b].ino == ino
  }

  predicate InodeUsed(geo: Geometry, inodes: Pool, n: nat)
    requires geo.inodesPerGroup > 0
  {
    n > 0 &&
    inodes.Has((n - 1) / geo.inodesPerGroup, (n - 1) % geo.inodesPerGroup) &&
    inodes.bits[(n - 1) / geo.inodesPerGroup][(n - 1) % geo.inodesPerGroup]
  }

  predicate BlockUsed(geo: Geometry, blocks: Pool, b: nat)
    requires geo.perGroup > 0 && b > 0
  {
    blocks.Has(GroupOf(geo, b), IndexOf(geo, b)) && blocks.bits[GroupOf(geo, b)][IndexOf(geo, b)]
  }

  /** The inode table after slot `s` was pointed at `b`. */
  function PointNodes(nodes: seq<Inode>, s: Slot, b: nat, sectors: nat): (r: seq<Inode>)
    requires 1 <= s.ino <= |nodes| && s.k < SLOTS && |nodes[s.ino - 1].ptr| == 13
    ensures |r| == |nodes|
  {
    var n := nodes[s.ino - 1];
    nodes[s.ino - 1 := n.(sectors := sectors, ptr := if s.k <= INDIRECT_SLOT then n.ptr[s.k := b] else n.ptr)]
  }

  /** The blocks after slot `s` was pointed at `b`. */
  function PointData(nodes: seq<Inode>, data: seq<seq<Byte>>, s: Slot, b: nat): (r: seq<seq<Byte>>)
    requires TablesOk(nodes, data) && 1 <= s.ino <= |nodes| && s.k < SLOTS && b < U32
    ensures |r| == |data|
  {
    var ind := nodes[s.ino - 1].ptr[INDIRECT_SLOT];
    if s.k <= INDIRECT_SLOT then data else data[ind := Store32(data[ind], 4 * (s.k - 13), b)]
  }

  /** Pointing one slot elsewhere moves no other pointer. */
  lemma PointedPtr(nodes: seq<Inode>, data: seq<seq<Byte>>, s: Slot, b: nat, sectors: nat, t: Slot)
    requires TablesOk(nodes, data) && 1 <= s.ino <= |nodes| && 1 <= t.ino <= |nodes| && s.k < SLOTS && t.k < SLOTS
    requires b < |data| < U32
    requires s.k > INDIRECT_SLOT ==> nodes[s.ino - 1].ptr[INDIRECT_SLOT] != 0
    requires s.k == INDIRECT_SLOT ==> b == 0 || Zero(data[b])
    requires s.k == INDIRECT_SLOT && t.ino == s.ino && t.k > INDIRECT_SLOT ==> Ptr(nodes, data, t) == 0
    requires t.ino != s.ino ==>
      nodes[t.ino - 1].ptr[INDIRECT_SLOT] == 0 || nodes[t.ino - 1].ptr[INDIRECT_SLOT] != nodes[s.ino - 1].ptr[INDIRECT_SLOT]
    ensures TablesOk(PointNodes(nodes, s, b, sectors), PointData(nodes, data, s, b))
    ensures Ptr(PointNodes(nodes, s, b, sectors), PointData(nodes, data, s, b), t) == if t == s then b else Ptr(nodes, data, t)
  {
    if s.k > INDIRECT_SLOT {
      var ind := nodes[s.ino - 1].ptr[INDIRECT_SLOT];
      StoreThenLoad(data[ind], 4 * (s.k - 13), b);
      if t.k > INDIRECT_SLOT && t.ino == s.ino && t != s {
        LoadElsewhere(data[ind], 4 * (s.k - 13), b, 4 * (t.k - 13));
      }
    } else if s.k == INDIRECT_SLOT && b != 0 && t.k > INDIRECT_SLOT && t.ino == s.ino {
      ZeroLoad(data[b], 4 * (t.k - 13));
    }
  }

  /** A mounted volume as one value; `owner` records which slot holds each block. */
  datatype Vol = Vol(geo: Geometry, groups: seq<Group>, blocks: Pool, inodes: Pool,
                     nodes: seq<Inode>, data: seq<seq<Byte>>, owner: map<nat, Slot>)
  {
    ghost predicate Shape() {
      && geo.perGroup > 0 && geo.inodesPerGroup > 0 && 1 < geo.blocks < U32
      && TablesOk(nodes, data) && |data| == geo.blocks
      && |groups| == |blocks.bits| == |inodes.bits| > 0
      && |nodes| == |groups| * geo.inodesPerGroup && |nodes| < U32
      && (forall g :: 0 <= g < |groups| ==> |blocks.bits[g]| == GroupSize(geo, g) && |inodes.bits[g]| == geo.inodesPerGroup)
    }

    /** Counters agree with bitmaps; what is not a data block is never free; reserved
        inodes are never free. */
    ghost predicate PoolsOk()
      requires geo.perGroup > 0
    {
      && blocks.Ok() && inodes.Ok()
      && (forall g: nat, i: nat :: blocks.Has(g, i) && !blocks.bits[g][i] ==> DataBlock(geo, groups, BlockNo(geo, g, i)))
      && 0 < geo.firstInode <= |inodes.bits[0]| + 1
      && (forall i :: 0 <= i < geo.firstInode - 1 ==> inodes.bits[0][i])
    }

    ghost predicate Live(n: nat)
      requires geo.inodesPerGroup > 0
    {
      1 <= n <= |nodes| && InodeUsed(geo, inodes, n)
    }

    /** Owners are exactly the nonzero pointers of live inodes: no block is reachable from
        two pointers, and none is used without being reachable (but for `loose`). */
    ghost predicate Owned(loose: set<nat>)
      requires Shape()
    {
      && (forall b :: b in owner ==>
            Live(owner[b].ino) && owner[b].k < SLOTS && DataBlock(geo, groups, b) && Ptr(nodes, data, owner[b]) == b)
      && (forall s: Slot :: Live(s.ino) && s.k < SLOTS && Ptr(nodes, data, s) != 0 ==>
            Ptr(nodes, data, s) in owner && owner[Ptr(nodes, data, s)] == s)
      && (forall b: nat :: DataBlock(geo, groups, b) ==> (BlockUsed(geo, blocks, b) <==> b in owner || b in loose))
      && loose !! owner.Keys
      && (forall b :: b in loose ==> DataBlock(geo, groups, b))
    }

    /** Block counts are exact, in 512-byte sectors. */
    ghost predicate Counted()
      requires geo.inodesPerGroup > 0
    {
      forall n: nat :: Live(n) ==> nodes[n - 1].sectors == 2 * |OwnedBy(owner, n)|
    }

    ghost predicate Ok(loose: set<nat>) {
      Shape() && PoolsOk() && Owned(loose) && Counted()
    }

    /** Store block `b` in an empty slot and count it. */
    function Attached(s: Slot, b: nat): Vol
      requires TablesOk(nodes, data) && 1 <= s.ino <= |nodes| && s.k < SLOTS && b < |data| < U32
    {
      this.(nodes := PointNodes(nodes, s, b, nodes[s.ino - 1].sectors + 2), data := PointData(nodes, data, s, b),
            owner := owner[b := s])
    }

    /** Slot `s` holds block `b`, which is in use and counted. */
    ghost predicate Holds(s: Slot, b: nat) {
      && TablesOk(nodes, data) && 1 <= s.ino <= |nodes| && s.k < SLOTS
      && 0 < b < |data| && Ptr(nodes, data, s) == b && geo.perGroup > 0
      && (s.k > INDIRECT_SLOT ==> nodes[s.ino - 1].ptr[INDIRECT_SLOT] != 0)
      && |blocks.groupFree| == |blocks.bits| && nodes[s.ino - 1].sectors >= 2
      && blocks.Has(GroupOf(geo, b), IndexOf(geo, b)) && blocks.bits[GroupOf(geo, b)][IndexOf(geo, b)]
    }

    /** Clear a slot, uncount its block and give it back. */
    function Detached(s: Slot, b: nat): Vol
      requires Holds(s, b)
    {
      this.(nodes := PointNodes(nodes, s, 0, nodes[s.ino - 1].sectors - 2), data := PointData(nodes, data, s, 0),
            blocks := blocks.Given(GroupOf(geo, b), IndexOf(geo, b)), owner := owner - {b})
    }
  }

  ghost predicate Zero(block: seq<Byte>) {
    |block| == BLOCK && forall i :: 0 <= i < BLOCK ==> block[i] == 0
  }

  lemma ZeroLoad(block: seq<Byte>, at: nat)
    requires Zero(block) && at + 4 <= BLOCK
    ensures Load32(block, at) == 0
  {
  }

  /** The indirect block of one live inode is not that of another. */
  lemma IndirectsDiffer(v: Vol, loose: set<nat>, m: nat, n: nat)
    requires v.Ok(loose) && v.Live(m) && v.Live(n) && m != n
    requires v.nodes[m - 1].ptr[INDIRECT_SLOT] != 0
    ensures v.nodes[m - 1].ptr[INDIRECT_SLOT] != v.nodes[n - 1].ptr[INDIRECT_SLOT]
  {
    hide DataBlock, BlockUsed, InodeUsed, Vol.PoolsOk, Vol.Counted, Pool.Ok, GroupSize;
    assert Ptr(v.nodes, v.data, Slot(m, INDIRECT_SLOT)) == v.nodes[m - 1].ptr[INDIRECT_SLOT];
    assert Ptr(v.nodes, v.data, Slot(n, INDIRECT_SLOT)) == v.nodes[n - 1].ptr[INDIRECT_SLOT];
  }

  /** Only the indirect block itself is written when a pointer in it changes. */
  lemma PointedData(nodes: seq<Inode>, data: seq<seq<Byte>>, s: Slot, b: nat, c: nat)
    requires TablesOk(nodes, data) && 1 <= s.ino <= |nodes| && s.k < SLOTS && b < U32 && c < |data|
    requires s.k > INDIRECT_SLOT ==> c != nodes[s.ino - 1].ptr[INDIRECT_SLOT]
    ensures PointData(nodes, data, s, b)[c] == data[c]
  {
  }

  /** The pointers of `w` are those of `v` except that slot `s` holds `b`. */
  ghost predicate Repointed(v: Vol, w: Vol, s: Slot, b: nat)
    requires v.Shape() && w.Shape() && v.geo == w.geo && |v.nodes| == |w.nodes|
  {
    forall t: Slot :: v.Live(t.ino) && t.k < SLOTS ==>
      Ptr(w.nodes, w.data, t) == if t == s then b else Ptr(v.nodes, v.data, t)
  }

  /** Everything but pointers, sector counts, contents and owners is the same. */
  ghost predicate SameFrame(v: Vol, w: Vol) {
    v.geo == w.geo && v.groups == w.groups && v.inodes == w.inodes && |v.nodes| == |w.nodes|
  }

  /** Pointing a slot of a live inode at `b`, in a volume that is consistent. */
  lemma PointedShape(v: Vol, loose: set<nat>, w: Vol, s: Slot, b: nat, sectors: nat)
    requires v.Ok(loose) && v.Live(s.ino) && s.k < SLOTS && b < |v.data|
    requires s.k > INDIRECT_SLOT ==> v.nodes[s.ino - 1].ptr[INDIRECT_SLOT] != 0
    requires s.k == INDIRECT_SLOT ==> b == 0 || Zero(v.data[b])
    requires s.k == INDIRECT_SLOT ==> forall k :: INDIRECT_SLOT < k < SLOTS ==> Ptr(v.nodes, v.data, Slot(s.ino, k)) == 0
    requires SameFrame(v, w) && |w.blocks.bits| == |v.blocks.bits|
    requires forall g :: 0 <= g < |v.groups| ==> |w.blocks.bits[g]| == |v.blocks.bits[g]|
    requires w.nodes == PointNodes(v.nodes, s, b, sectors) && w.data == PointData(v.nodes, v.data, s, b)
    ensures w.Shape() && Repointed(v, w, s, b)
  {
    hide Ptr, DataBlock, BlockUsed, Pool.Ok, Store32, GroupSize, Vol.Counted, Vol.Owned, PointNodes, PointData;
    PointedPtr(v.nodes, v.data, s, b, sectors, s);
    forall t: Slot | v.Live(t.ino) && t.k < SLOTS
      ensures Ptr(w.nodes, w.data, t) == if t == s then b else Ptr(v.nodes, v.data, t)
    {
      if t.ino != s.ino && v.nodes[t.ino - 1].ptr[INDIRECT_SLOT] != 0 {
        IndirectsDiffer(v, loose, t.ino, s.ino);
      }
      PointedPtr(v.nodes, v.data, s, b, sectors, t);
    }
  }

  lemma AttachedOwned(v: Vol, w: Vol, s: Slot, b: nat)
    requires v.Shape() && w.Shape() && SameFrame(v, w) && w.blocks == v.blocks && w.owner == v.owner[b := s]
    requires v.Owned({b}) && v.Live(s.ino) && s.k < SLOTS && b > 0 && Ptr(v.nodes, v.data, s) == 0
    requires Repointed(v, w, s, b)
    ensures w.Owned({})
  {
    assert 0 !in v.owner;
    hide Ptr, DataBlock, BlockUsed, InodeUsed, TablesOk, GroupSize;
  }

  lemma AttachedCounted(v: Vol, w: Vol, s: Slot, b: nat)
    requires v.Shape() && v.Counted() && SameFrame(v, w) && w.owner == v.owner[b := s] && b !in v.owner
    requires v.Live(s.ino) && w.nodes[s.ino - 1].sectors == v.nodes[s.ino - 1].sectors + 2
    requires forall n :: 0 <= n < |v.nodes| && n != s.ino - 1 ==> w.nodes[n].sectors == v.nodes[n].sectors
    ensures w.Counted()
  {
    hide InodeUsed, TablesOk, GroupSize;
    forall n: nat | w.Live(n) ensures w.nodes[n - 1].sectors == 2 * |OwnedBy(w.owner, n)| {
      assert v.Live(n);
      if n == s.ino {
        assert OwnedBy(w.owner, n) == OwnedBy(v.owner, n) + {b};
      } else {
        assert OwnedBy(w.owner, n) == OwnedBy(v.owner, n);
      }
    }
  }

  lemma PointedSectors(nodes: seq<Inode>, s: Slot, b: nat, sectors: nat)
    requires 1 <= s.ino <= |nodes| && s.k < SLOTS && |nodes[s.ino - 1].ptr| == 13
    ensures PointNodes(nodes, s, b, sectors)[s.ino - 1].sectors == sectors
    ensures forall n :: 0 <= n < |nodes| && n != s.ino - 1 ==> PointNodes(nodes, s, b, sectors)[n] == nodes[n]
  {
  }

  /** Attaching a loose block keeps ownership exact. */
  lemma AttachedOk(v: Vol, s: Slot, b: nat)
    requires v.Ok({b}) && v.Live(s.ino) && s.k < SLOTS && Ptr(v.nodes, v.data, s) == 0
    requires 0 < b < |v.data| && (s.k > INDIRECT_SLOT ==> v.nodes[s.ino - 1].ptr[INDIRECT_SLOT] != 0)
    requires s.k == INDIRECT_SLOT ==> Zero(v.data[b]) && forall k :: INDIRECT_SLOT < k < SLOTS ==> Ptr(v.nodes, v.data, Slot(s.ino, k)) == 0
    ensures v.Attached(s, b).Ok({}) && SameFrame(v, v.Attached(s, b))
    ensures Repointed(v, v.Attached(s, b), s, b)
  {
    hide Ptr, DataBlock, BlockUsed, InodeUsed, Pool.Ok, GroupSize, Store32, Repointed, Vol.Counted, PointNodes, PointData;
    var w := v.Attached(s, b);
    PointedShape(v, {b}, w, s, b, v.nodes[s.ino - 1].sectors + 2);
    PointedSectors(v.nodes, s, b, v.nodes[s.ino - 1].sectors + 2);
    assert b !in v.owner;
    AttachedOwned(v, w, s, b);
    AttachedCounted(v, w, s, b);
    hide Vol.Owned, TablesOk;
  }

  /** A pointer inside the indirect block needs an indirect block. */
  lemma PtrSpan(nodes: seq<Inode>, data: seq<seq<Byte>>, s: Slot)
    requires TablesOk(nodes, data) && 1 <= s.ino <= |nodes| && s.k < SLOTS && Ptr(nodes, data, s) != 0
    ensures s.k > INDIRECT_SLOT ==> nodes[s.ino - 1].ptr[INDIRECT_SLOT] != 0
  {
  }

  lemma DataBlockRange(geo: Geometry, groups: seq<Group>, b: nat)
    requires geo.perGroup > 0 && DataBlock(geo, groups, b)
    ensures 0 < b < geo.blocks
  {
  }

  /** Every nonzero pointer of a live inode names a block that its slot owns. */
  lemma OwnsIt(v: Vol, loose: set<nat>, s: Slot)
    requires v.Shape() && v.Owned(loose) && v.Live(s.ino) && s.k < SLOTS && Ptr(v.nodes, v.data, s) != 0
    ensures var b := Ptr(v.nodes, v.data, s);
      b in v.owner && v.owner[b] == s && DataBlock(v.geo, v.groups, b) && 0 < b < |v.data| && BlockUsed(v.geo, v.blocks, b)
  {
    hide Ptr, BlockUsed, InodeUsed, TablesOk, DataBlock;
    DataBlockRange(v.geo, v.groups, Ptr(v.nodes, v.data, s));
  }

  /** A block in `owner` is counted in its inode. */
  lemma CountsIt(v: Vol, s: Slot, b: nat)
    requires v.Shape() && v.Counted() && v.Live(s.ino) && b in v.owner && v.owner[b] == s
    ensures v.nodes[s.ino - 1].sectors >= 2
  {
    hide InodeUsed, TablesOk;
    assert b in OwnedBy(v.owner, s.ino);
  }

  lemma HoldsIt(v: Vol, s: Slot)
    requires v.Ok({}) && v.Live(s.ino) && s.k < SLOTS && Ptr(v.nodes, v.data, s) != 0
    ensures v.Holds(s, Ptr(v.nodes, v.data, s))
    ensures Ptr(v.nodes, v.data, s) in v.owner && v.owner[Ptr(v.nodes, v.data, s)] == s
    ensures DataBlock(v.geo, v.groups, Ptr(v.nodes, v.data, s))
  {
    hide Ptr, InodeUsed, TablesOk, DataBlock, GroupOf, IndexOf, Vol.Owned, Vol.Counted;
    OwnsIt(v, {}, s);
    CountsIt(v, s, Ptr(v.nodes, v.data, s));
    PtrSpan(v.nodes, v.data, s);
  }

  /** Giving one block back clears its bit and no other. */
  lemma GivenUsed(geo: Geometry, p: Pool, b: nat, c: nat)
    requires geo.perGroup > 0 && 0 < b < geo.blocks && 0 < c < geo.blocks
    requires p.Has(GroupOf(geo, b), IndexOf(geo, b)) && |p.groupFree| == |p.bits|
    ensures BlockUsed(geo, p.Given(GroupOf(geo, b), IndexOf(geo, b)), c) <==> c != b && BlockUsed(geo, p, c)
  {
    PlaceBlock(geo, b);
    PlaceBlock(geo, c);
  }

  lemma DetachedOwned(v: Vol, w: Vol, s: Slot, b: nat)
    requires v.Shape() && w.Shape() && SameFrame(v, w) && w.owner == v.owner - {b}
    requires v.Owned({}) && v.Live(s.ino) && s.k < SLOTS && b > 0 && Ptr(v.nodes, v.data, s) == b
    requires forall c: nat :: DataBlock(v.geo, v.groups, c) ==>
      (BlockUsed(w.geo, w.blocks, c) <==> c != b && BlockUsed(v.geo, v.blocks, c))
    requires Repointed(v, w, s, 0)
    ensures w.Owned({})
  {
    hide Ptr, DataBlock, BlockUsed, InodeUsed, TablesOk, GroupSize;
  }

  lemma DetachedCounted(v: Vol, w: Vol, s: Slot, b: nat)
    requires v.Shape() && v.Counted() && SameFrame(v, w) && w.owner == v.owner - {b} && b in v.owner && v.owner[b] == s
    requires v.Live(s.ino) && w.nodes[s.ino - 1].sectors == v.nodes[s.ino - 1].sectors - 2
    requires forall n :: 0 <= n < |v.nodes| && n != s.ino - 1 ==> w.nodes[n].sectors == v.nodes[n].sectors
    ensures w.Counted()
  {
    hide InodeUsed, TablesOk, GroupSize;
    forall n: nat | w.Live(n) ensures w.nodes[n - 1].sectors == 2 * |OwnedBy(w.owner, n)| {
      assert v.Live(n);
      if n == s.ino {
        assert b in OwnedBy(v.owner, n);
        assert OwnedBy(w.owner, n) == OwnedBy(v.owner, n) - {b};
      } else {
        assert OwnedBy(w.owner, n) == OwnedBy(v.owner, n);
      }
    }
  }

  lemma DetachedPools(v: Vol, w: Vol, b: nat)
    requires v.Shape() && v.PoolsOk() && SameFrame(v, w) && 0 < b < v.geo.blocks && DataBlock(v.geo, v.groups, b)
    requires var g, i := GroupOf(v.geo, b), IndexOf(v.geo, b);
      v.blocks.Has(g, i) && v.blocks.bits[g][i] && |v.blocks.groupFree| == |v.blocks.bits| && w.blocks == v.blocks.Given(g, i)
    ensures w.PoolsOk()
  {
    hide DataBlock, TablesOk, InodeUsed;
    var g, i := GroupOf(v.geo, b), IndexOf(v.geo, b);
    GivenOk(v.blocks, g, i);
    PlaceBlock(v.geo, b);
    hide Pool.Ok;
  }

  lemma DetachedUsed(v: Vol, s: Slot, b: nat)
    requires v.Shape() && v.Holds(s, b)
    ensures forall c: nat :: DataBlock(v.geo, v.groups, c) ==>
      (BlockUsed(v.geo, v.Detached(s, b).blocks, c) <==> c != b && BlockUsed(v.geo, v.blocks, c))
  {
    hide BlockUsed, Ptr, TablesOk, GroupOf, IndexOf, PointNodes, PointData, Pool.Has;
    forall c: nat | DataBlock(v.geo, v.groups, c)
      ensures BlockUsed(v.geo, v.Detached(s, b).blocks, c) <==> c != b && BlockUsed(v.geo, v.blocks, c)
    {
      GivenUsed(v.geo, v.blocks, b, c);
    }
  }

  lemma DetachedShape(v: Vol, s: Slot, b: nat)
    requires v.Ok({}) && v.Live(s.ino) && v.Holds(s, b)
    requires s.k == INDIRECT_SLOT ==> forall k :: INDIRECT_SLOT < k < SLOTS ==> Ptr(v.nodes, v.data, Slot(s.ino, k)) == 0
    ensures SameFrame(v, v.Detached(s, b)) && v.Detached(s, b).Shape() && Repointed(v, v.Detached(s, b), s, 0)
  {
    hide Ptr, BlockUsed, InodeUsed, DataBlock, Pool.Ok, GroupSize, Store32, Repointed, Vol.Counted, Vol.Owned, PointNodes, PointData, TablesOk, GroupOf, IndexOf;
    PointedShape(v, {}, v.Detached(s, b), s, 0, v.nodes[s.ino - 1].sectors - 2);
  }

  lemma DetachedSectors(v: Vol, s: Slot, b: nat)
    requires v.Holds(s, b)
    ensures var w := v.Detached(s, b);
      && w.nodes[s.ino - 1].sectors == v.nodes[s.ino - 1].sectors - 2
      && forall n :: 0 <= n < |v.nodes| && n != s.ino - 1 ==> w.nodes[n].sectors == v.nodes[n].sectors
  {
    PointedSectors(v.nodes, s, 0, v.nodes[s.ino - 1].sectors - 2);
  }

  /** Detaching a block gives it back: counters, bitmaps and ownership stay exact. */
  lemma DetachedOk(v: Vol, s: Slot, b: nat)
    requires v.Ok({}) && v.Live(s.ino) && s.k < SLOTS && b != 0 && Ptr(v.nodes, v.data, s) == b
    requires s.k == INDIRECT_SLOT ==> forall k :: INDIRECT_SLOT < k < SLOTS ==> Ptr(v.nodes, v.data, Slot(s.ino, k)) == 0
    ensures v.Holds(s, b) && v.Detached(s, b).Ok({}) && SameFrame(v, v.Detached(s, b))
    ensures Repointed(v, v.Detached(s, b), s, 0)
    ensures v.Detached(s, b).blocks.free == v.blocks.free + 1
  {
    HoldsIt(v, s);
    DetachedShape(v, s, b);
    DetachedUsed(v, s, b);
    hide Ptr, DataBlock, BlockUsed, InodeUsed, Pool.Ok, Pool.Has, GroupSize, Repointed, Vol.Counted, Vol.Owned, Vol.PoolsOk, PointNodes, PointData, GroupOf, IndexOf, TablesOk, OwnedBy;
    DetachedSectors(v, s, b);
    assert v.Ok({}) && v.Shape() && v.Owned({}) && v.Counted() && v.PoolsOk();
    hide Vol.Ok;
    hide Vol.Shape;
    var w := v.Detached(s, b);
    DetachedOwned(v, w, s, b);
    DetachedCounted(v, w, s, b);
    DetachedPools(v, w, b);
  }

  /** Overwriting the contents of a block that is not an indirect block moves no pointer. */
  lemma StoredPtr(v: Vol, loose: set<nat>, b: nat, bytes: seq<Byte>, t: Slot)
    requires v.Ok(loose) && b < |v.data| && |bytes| == BLOCK
    requires b in v.owner ==> v.owner[b].k != INDIRECT_SLOT
    requires v.Live(t.ino) && t.k < SLOTS
    ensures TablesOk(v.nodes, v.data[b := bytes])
    ensures Ptr(v.nodes, v.data[b := bytes], t) == Ptr(v.nodes, v.data, t)
  {
    hide DataBlock, BlockUsed, InodeUsed, Pool.Ok, GroupSize, Vol.PoolsOk, Vol.Counted;
    if t.k > INDIRECT_SLOT {
      assert Ptr(v.nodes, v.data, Slot(t.ino, INDIRECT_SLOT)) == v.nodes[t.ino - 1].ptr[INDIRECT_SLOT];
    }
  }

  lemma StoredOk(v: Vol, loose: set<nat>, b: nat, bytes: seq<Byte>)
    requires v.Ok(loose) && b < |v.data| && |bytes| == BLOCK
    requires b in v.owner ==> v.owner[b].k != INDIRECT_SLOT
    ensures v.(data := v.data[b := bytes]).Ok(loose)
  {
    forall t: Slot | v.Live(t.ino) && t.k < SLOTS
      ensures TablesOk(v.nodes, v.data[b := bytes]) && Ptr(v.nodes, v.data[b := bytes], t) == Ptr(v.nodes, v.data, t)
    {
      StoredPtr(v, loose, b, bytes, t);
    }
    hide Ptr, DataBlock, BlockUsed, InodeUsed, Pool.Ok;
  }
}
