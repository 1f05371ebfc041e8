/** fs.c: what engine_init checks before it mounts a volume, and what every later use of
    the block cache rests on: the engine never addresses the superblock or the descriptor
    table as blocks. */
module Ext2Mount {
  import opened Arithmetic
  import opened Ext2Pools
  import opened Ext2Layout

  const DESCRIPTOR := 32
  const MAX_PER_GROUP := 8192
  const MIN_BLOCKS := 16

  /** The number of groups, and how many blocks their descriptors take. */
  predicate GeometryOk(geo: Geometry, groups: nat) {
    && MIN_BLOCKS <= geo.blocks && 0 < geo.perGroup <= MAX_PER_GROUP && 0 < geo.inodesPerGroup <= MAX_PER_GROUP
    && groups == (geo.blocks - 2) / geo.perGroup + 1
    && geo.descriptorBlocks == (groups * DESCRIPTOR + BLOCK - 1) / BLOCK
  }

  /** First block that belongs neither to the boot and super blocks nor to the descriptor table. */
  function Reserved(geo: Geometry): nat {
    2 + geo.descriptorBlocks
  }

  /** The first block of group `g` after its copies of the superblock and the descriptors. */
  function MetadataEnd(geo: Geometry, g: nat): nat {
    GroupStart(geo, g) + if BackupGroup(geo, g) then 1 + geo.descriptorBlocks else 0
  }

  function GroupEnd(geo: Geometry, g: nat): nat {
    GroupStart(geo, g) + GroupSize(geo, g)
  }

  predicate InTable(geo: Geometry, d: Group, b: nat) {
    d.table <= b < d.table + geo.tableBlocks
  }

  /** The bitmaps and the inode table of a group lie in it, past the copies, apart. */
  predicate GroupFits(geo: Geometry, d: Group, g: nat) {
    var first, end := MetadataEnd(geo, g), GroupEnd(geo, g);
    && first <= end && first <= d.blockMap < end && first <= d.inodeMap < end && d.blockMap != d.inodeMap
    && first <= d.table < end && geo.tableBlocks <= end - d.table
    && !InTable(geo, d, d.blockMap) && !InTable(geo, d, d.inodeMap)
  }

  /** Is this block of group `g` the file system's own? */
  predicate Metadata(geo: Geometry, d: Group, g: nat, b: nat) {
    b < MetadataEnd(geo, g) || b == d.blockMap || b == d.inodeMap || InTable(geo, d, b)
  }

  /** The bitmap of group `g` marks all of that as used. */
  predicate MetadataUsed(geo: Geometry, d: Group, g: nat, bits: seq<bool>) {
    forall i :: 0 <= i < |bits| && Metadata(geo, d, g, GroupStart(geo, g) + i) ==> bits[i]
  }

  predicate GroupChecked(geo: Geometry, d: Group, g: nat, free: nat, freeInodes: nat, bits: seq<bool>) {
    GroupFits(geo, d, g) && free <= GroupSize(geo, g) && freeInodes <= geo.inodesPerGroup && MetadataUsed(geo, d, g, bits)
  }

  predicate Sized(geo: Geometry, groups: seq<Group>, blocks: Pool, inodes: Pool) {
    && |groups| == |blocks.bits| == |blocks.groupFree| == |inodes.bits| == |inodes.groupFree| > 0
    && 0 < geo.firstInode <= |inodes.bits[0]| + 1
    && forall g :: 0 <= g < |groups| ==> |blocks.bits[g]| == GroupSize(geo, g)
  }

  /** Everything engine_init asks of the descriptors and bitmaps. */
  predicate Mountable(geo: Geometry, groups: seq<Group>, blocks: Pool, inodes: Pool)
    requires Sized(geo, groups, blocks, inodes)
  {
    && (forall g :: 0 <= g < |groups| ==>
          GroupChecked(geo, groups[g], g, blocks.groupFree[g], inodes.groupFree[g], blocks.bits[g]))
    && blocks.free == Sum(blocks.groupFree) && inodes.free == Sum(inodes.groupFree)
    && forall i :: 0 <= i < geo.firstInode - 1 ==> inodes.bits[0][i]
  }

  /** The checks on one group: its copies, then its two bitmaps, then its inode table. */
  method CheckGroup(geo: Geometry, d: Group, g: nat, free: nat, freeInodes: nat, bits: seq<bool>) returns (ok: bool)
    requires |bits| == GroupSize(geo, g)
    ensures ok <==> GroupChecked(geo, d, g, free, freeInodes, bits)
  {
    hide BackupGroup, GroupSize;
    var first, end, metadata := GroupStart(geo, g), GroupEnd(geo, g), MetadataEnd(geo, g);
    if metadata > end || d.blockMap < metadata || d.blockMap >= end || d.inodeMap < metadata || d.inodeMap >= end ||
       d.blockMap == d.inodeMap || d.table < metadata || d.table >= end || geo.tableBlocks > end - d.table ||
       (d.blockMap >= d.table && d.blockMap < d.table + geo.tableBlocks) ||
       (d.inodeMap >= d.table && d.inodeMap < d.table + geo.tableBlocks) ||
       free > GroupSize(geo, g) || freeInodes > geo.inodesPerGroup {
      return false;
    }
    for b := first to metadata
      invariant forall i :: 0 <= i < b - first ==> bits[i]
    {
      if !bits[b - first] {
        Unused(geo, d, g, bits, b - first);
        return false;
      }
    }
    if !bits[d.blockMap - first] || !bits[d.inodeMap - first] {
      Unused(geo, d, g, bits, if !bits[d.blockMap - first] then d.blockMap - first else d.inodeMap - first);
      return false;
    }
    for b := d.table to d.table + geo.tableBlocks
      invariant forall i :: d.table - first <= i < b - first ==> bits[i]
    {
      if !bits[b - first] {
        Unused(geo, d, g, bits, b - first);
        return false;
      }
    }
    ok := true;
  }

  lemma Unused(geo: Geometry, d: Group, g: nat, bits: seq<bool>, i: nat)
    requires i < |bits| && !bits[i] && Metadata(geo, d, g, GroupStart(geo, g) + i)
    ensures !MetadataUsed(geo, d, g, bits)
  {
  }

  /** The loop of engine_init over the groups, its two totals, and the reserved inodes. */
  method Check(geo: Geometry, groups: seq<Group>, blocks: Pool, inodes: Pool) returns (ok: bool)
    requires Sized(geo, groups, blocks, inodes)
    ensures ok <==> Mountable(geo, groups, blocks, inodes)
  {
    hide GroupChecked;
    var freeBlocks, freeInodes := 0, 0;
    for g := 0 to |groups|
      invariant forall h :: 0 <= h < g ==>
        GroupChecked(geo, groups[h], h, blocks.groupFree[h], inodes.groupFree[h], blocks.bits[h])
      invariant freeBlocks == Sum(blocks.groupFree[..g]) && freeInodes == Sum(inodes.groupFree[..g])
    {
      ok := CheckGroup(geo, groups[g], g, blocks.groupFree[g], inodes.groupFree[g], blocks.bits[g]);
      if !ok { return; }
      assert blocks.groupFree[..g + 1][..g] == blocks.groupFree[..g] && inodes.groupFree[..g + 1][..g] == inodes.groupFree[..g];
      freeBlocks, freeInodes := freeBlocks + blocks.groupFree[g], freeInodes + inodes.groupFree[g];
    }
    assert blocks.groupFree[..|groups|] == blocks.groupFree && inodes.groupFree[..|groups|] == inodes.groupFree;
    if blocks.free != freeBlocks || inodes.free != freeInodes {
      return false;
    }
    for n := 1 to geo.firstInode
      invariant forall i :: 0 <= i < n - 1 ==> inodes.bits[0][i]
    {
      if !inodes.bits[0][n - 1] { return false; }
    }
    ok := true;
  }

  /** What mounting establishes of the allocator's invariant: all of it, once the count of
      every group is the one its bitmap shows, which engine_init does not look at. */
  lemma MountedPools(v: Vol)
    requires v.Shape() && Sized(v.geo, v.groups, v.blocks, v.inodes) && Mountable(v.geo, v.groups, v.blocks, v.inodes)
    requires v.blocks.hint == v.inodes.hint == 0
    ensures v.PoolsOk() <==> forall g :: 0 <= g < |v.groups| ==>
      v.blocks.groupFree[g] == Clear(v.blocks.bits[g]) && v.inodes.groupFree[g] == Clear(v.inodes.bits[g])
  {
    hide TablesOk, GroupSize, BackupGroup, DataBlock, MetadataUsed, GroupChecked;
    forall g: nat, i: nat | v.blocks.Has(g, i) && !v.blocks.bits[g][i]
      ensures DataBlock(v.geo, v.groups, BlockNo(v.geo, g, i))
    {
      FreeIsData(v, g, i);
    }
  }

  /** A block the bitmap of a mounted volume calls free is a data block. */
  lemma FreeIsData(v: Vol, g: nat, i: nat)
    requires v.Shape() && Sized(v.geo, v.groups, v.blocks, v.inodes) && Mountable(v.geo, v.groups, v.blocks, v.inodes)
    requires v.blocks.Has(g, i) && !v.blocks.bits[g][i]
    ensures DataBlock(v.geo, v.groups, BlockNo(v.geo, g, i))
  {
    hide TablesOk, BackupGroup, Sum;
    var geo := v.geo;
    assert GroupChecked(geo, v.groups[g], g, v.blocks.groupFree[g], v.inodes.groupFree[g], v.blocks.bits[g]);
    BlockPlace(geo, g, i);
    assert !Metadata(geo, v.groups[g], g, GroupStart(geo, g) + i);
  }

  // ------------------------------------------------------------ which blocks the engine addresses

  predicate Laid(geo: Geometry, groups: seq<Group>) {
    GeometryOk(geo, |groups|) && forall g :: 0 <= g < |groups| ==> GroupFits(geo, groups[g], g)
  }

  /** Data blocks, indirect blocks among them, and each group's bitmaps and inode table. */
  predicate Addressed(geo: Geometry, groups: seq<Group>, b: nat) {
    || (geo.perGroup > 0 && DataBlock(geo, groups, b))
    || exists g :: 0 <= g < |groups| && OwnBlock(geo, groups[g], b)
  }

  predicate OwnBlock(geo: Geometry, d: Group, b: nat) {
    b == d.blockMap || b == d.inodeMap || InTable(geo, d, b)
  }

  /** No block the engine addresses is the superblock's or the descriptor table's. */
  lemma AddressedApart(geo: Geometry, groups: seq<Group>, b: nat)
    requires Laid(geo, groups) && Addressed(geo, groups, b)
    ensures Reserved(geo) <= b < geo.blocks
  {
    assert GroupFits(geo, groups[0], 0);
    assert Reserved(geo) <= 1 + geo.perGroup;
    if DataBlock(geo, groups, b) {
      LaterGroup(geo, GroupOf(geo, b));
      PlaceBlock(geo, b);
    } else {
      var g :| 0 <= g < |groups| && OwnBlock(geo, groups[g], b);
      assert GroupFits(geo, groups[g], g);
      LaterGroup(geo, g);
    }
  }

  lemma LaterGroup(geo: Geometry, g: nat)
    requires geo.perGroup > 0
    ensures g > 0 ==> GroupStart(geo, g) >= 1 + geo.perGroup
  {
    if g > 0 {
      ProductNonNegative(g - 1, geo.perGroup);
      assert g * geo.perGroup == geo.perGroup + (g - 1) * geo.perGroup;
    }
  }

  /** The block of inode `n`, for inodes of `size` bytes. */
  function InodeBlock(geo: Geometry, groups: seq<Group>, size: nat, n: nat): nat
    requires geo.inodesPerGroup > 0 && 1 <= n && (n - 1) / geo.inodesPerGroup < |groups|
  {
    groups[(n - 1) / geo.inodesPerGroup].table + (n - 1) % geo.inodesPerGroup * size / BLOCK
  }

  lemma InodeBlockAddressed(geo: Geometry, groups: seq<Group>, size: nat, n: nat)
    requires geo.inodesPerGroup > 0 && 1 <= n && (n - 1) / geo.inodesPerGroup < |groups|
    requires size in {128, 256} && geo.tableBlocks * BLOCK == geo.inodesPerGroup * size
    ensures Addressed(geo, groups, InodeBlock(geo, groups, size, n))
  {
    var g, index := (n - 1) / geo.inodesPerGroup, (n - 1) % geo.inodesPerGroup;
    assert index * size <= (geo.inodesPerGroup - 1) * size < geo.tableBlocks * BLOCK;
    assert OwnBlock(geo, groups[g], InodeBlock(geo, groups, size, n));
  }

  /** May the engine, in state `v`, hand this number to block()? A bitmap, a block some
      pointer of a used inode names, one just allocated, or one allocate can choose. */
  ghost predicate Reaches(v: Vol, loose: set<nat>, b: nat)
    requires v.Shape()
  {
    || (exists g :: 0 <= g < |v.groups| && (b == v.groups[g].blockMap || b == v.groups[g].inodeMap))
    || (exists s: Slot :: v.Live(s.ino) && s.k < SLOTS && Ptr(v.nodes, v.data, s) == b != 0)
    || b in loose
    || (exists g: nat, i: nat :: v.blocks.Has(g, i) && !v.blocks.bits[g][i] && BlockNo(v.geo, g, i) == b)
  }

  /** Everything the engine reaches on a consistent mounted volume lies apart from the
      superblock and the descriptor table. */
  lemma ReachedApart(v: Vol, loose: set<nat>, b: nat)
    requires v.Ok(loose) && Laid(v.geo, v.groups) && Reaches(v, loose, b)
    ensures Addressed(v.geo, v.groups, b) && Reserved(v.geo) <= b < v.geo.blocks
  {
    hide TablesOk, GroupSize, BackupGroup, DataBlock, Ptr, InodeUsed, BlockUsed, Pool.Ok, Vol.Counted, GroupFits, GeometryOk;
    if g :| 0 <= g < |v.groups| && (b == v.groups[g].blockMap || b == v.groups[g].inodeMap) {
      assert OwnBlock(v.geo, v.groups[g], b);
    }
    AddressedApart(v.geo, v.groups, b);
  }
}
