/** fs.c: what the bytes of a volume mean. The stores the engine makes in bitmaps, inodes,
    descriptors and data blocks are the steps the volume's modules reason about. */
module Ext2Image {
  import opened Arithmetic
  import opened Bytes
  import opened Ext2Pools
  import opened Ext2Layout
  import opened Ext2Steps
  import opened Ext2Tree
  import opened Ext2Mount

  /** Superblock, descriptor table and blocks, in memory or on a disk. */
  datatype Raw = Raw(super: seq<Byte>, table: seq<Byte>, blocks: seq<seq<Byte>>)

  /** What engine_init reads besides: geometry, size of an inode, number of groups. */
  datatype Plan = Plan(geo: Geometry, inodeSize: nat, groups: nat) {
    predicate Ok() {
      && 0 < geo.perGroup && 0 < geo.inodesPerGroup && inodeSize in {128, 256}
      && geo.inodesPerGroup * inodeSize == geo.tableBlocks * BLOCK
    }
  }

  // ------------------------------------------------------------ fields

  function Get16(s: seq<Byte>, at: nat): nat {
    if at + 2 <= |s| then Load16(s, at) else 0
  }

  function Get32(s: seq<Byte>, at: nat): nat {
    if at + 4 <= |s| then Load32(s, at) else 0
  }

  /** put16, which keeps the low sixteen bits. */
  function Put16(s: seq<Byte>, at: nat, v: nat): (r: seq<Byte>)
    ensures |r| == |s|
  {
    if at + 2 <= |s| then Splice(s, at, [v % 0x100, v / 0x100 % 0x100]) else s
  }

  function Put32(s: seq<Byte>, at: nat, v: Word): (r: seq<Byte>)
    ensures |r| == |s|
  {
    if at + 4 <= |s| then Store32(s, at, v) else s
  }

  lemma PutGet16(s: seq<Byte>, at: nat, v: nat)
    requires at + 2 <= |s| && v < 0x1_0000
    ensures Get16(Put16(s, at, v), at) == v
  {
    assert v == v / 0x100 * 0x100 + v % 0x100;
  }

  lemma PutGet32(s: seq<Byte>, at: nat, v: Word)
    requires at + 4 <= |s|
    ensures Get32(Put32(s, at, v), at) == v
  {
    StoreThenLoad(s, at, v);
  }

  // ------------------------------------------------------------ bits

  /** (x >> k) & 1. */
  predicate BitOf(x: nat, k: nat) {
    if k == 0 then x % 2 == 1 else BitOf(x / 2, k - 1)
  }

  function Pow2(k: nat): nat {
    if k == 0 then 1 else 2 * Pow2(k - 1)
  }

  /** x | 1 << k, or x & ~(1 << k), in `width` bits. */
  function WithBit(x: nat, k: nat, used: bool, width: nat): (r: nat)
    requires k < width && x < Pow2(width)
    ensures r < Pow2(width)
  {
    if k == 0 then x / 2 * 2 + if used then 1 else 0
    else x % 2 + 2 * WithBit(x / 2, k - 1, used, width - 1)
  }

  lemma {:induction false} WithBitReads(x: nat, k: nat, used: bool, width: nat, j: nat)
    requires k < width && x < Pow2(width)
    ensures BitOf(WithBit(x, k, used, width), j) == if j == k then used else BitOf(x, j)
  {
    if k > 0 && j > 0 {
      WithBitReads(x / 2, k - 1, used, width - 1, j - 1);
    }
  }

  lemma ByteWidth()
    ensures Pow2(8) == 256
  {
    assert Pow2(4) == 16;
  }

  /** bit(). */
  predicate Bit(bytes: seq<Byte>, n: nat) {
    n / 8 < |bytes| && BitOf(bytes[n / 8], n % 8)
  }

  /** setbit(). */
  function SetBit(bytes: seq<Byte>, n: nat, used: bool): (r: seq<Byte>)
    ensures |r| == |bytes|
  {
    ByteWidth();
    if n / 8 < |bytes| then bytes[n / 8 := WithBit(bytes[n / 8], n % 8, used, 8)] else bytes
  }

  lemma SetBitReads(bytes: seq<Byte>, n: nat, used: bool, j: nat)
    requires n / 8 < |bytes|
    ensures Bit(SetBit(bytes, n, used), j) == if j == n then used else Bit(bytes, j)
  {
    ByteWidth();
    if j / 8 == n / 8 {
      WithBitReads(bytes[n / 8], n % 8, used, 8, j % 8);
    }
  }

  // ------------------------------------------------------------ decoding

  function BlockAt(raw: Raw, b: nat): (r: seq<Byte>)
    ensures |r| == BLOCK
  {
    if b < |raw.blocks| && |raw.blocks[b]| == BLOCK then raw.blocks[b] else ZeroBlock()
  }

  /** group_desc, but for the free counts. */
  function GroupAt(table: seq<Byte>, g: nat): Group {
    Group(Get32(table, 32 * g), Get32(table, 32 * g + 4), Get32(table, 32 * g + 8), Get16(table, 32 * g + 16))
  }

  function GroupsAt(table: seq<Byte>, n: nat): (r: seq<Group>)
    ensures |r| == n
  {
    seq(n, g requires 0 <= g < n => GroupAt(table, g))
  }

  function BitsAt(block: seq<Byte>, n: nat): (r: seq<bool>)
    ensures |r| == n
  {
    seq(n, i requires 0 <= i < n => Bit(block, i))
  }

  /** The fields of an inode that supported() lets be other than zero, or that are written. */
  function NodeAt(block: seq<Byte>, at: nat): (r: Inode)
    ensures |r.ptr| == 13
  {
    Inode(Get16(block, at), Get16(block, at + 26), Get32(block, at + 4), Get32(block, at + 28),
          seq(13, k requires 0 <= k < 13 => Get32(block, at + 40 + 4 * k)), Get32(block, at + 20))
  }

  function NodeGroup(p: Plan, n: nat): nat
    requires p.Ok() && n > 0
  {
    (n - 1) / p.geo.inodesPerGroup
  }

  function NodeIndex(p: Plan, n: nat): nat
    requires p.Ok() && n > 0
  {
    (n - 1) % p.geo.inodesPerGroup
  }

  /** Where inode `n` is: a block, and the offset in it. */
  function NodeBlock(p: Plan, groups: seq<Group>, n: nat): nat
    requires p.Ok() && n > 0
  {
    if NodeGroup(p, n) < |groups| then groups[NodeGroup(p, n)].table + NodeIndex(p, n) * p.inodeSize / BLOCK else 0
  }

  function NodeOffset(p: Plan, n: nat): nat
    requires p.Ok() && n > 0
  {
    NodeIndex(p, n) * p.inodeSize % BLOCK
  }

  function BlockPool(p: Plan, raw: Raw, groups: seq<Group>, hint: nat): Pool
    requires p.Ok()
  {
    Pool(Get32(raw.super, 12), seq(|groups|, g requires 0 <= g < |groups| => Get16(raw.table, 32 * g + 12)),
         seq(|groups|, g requires 0 <= g < |groups| => BitsAt(BlockAt(raw, groups[g].blockMap), GroupSize(p.geo, g))), hint)
  }

  function InodePool(p: Plan, raw: Raw, groups: seq<Group>, hint: nat): Pool
    requires p.Ok()
  {
    Pool(Get32(raw.super, 16), seq(|groups|, g requires 0 <= g < |groups| => Get16(raw.table, 32 * g + 14)),
         seq(|groups|, g requires 0 <= g < |groups| => BitsAt(BlockAt(raw, groups[g].inodeMap), p.geo.inodesPerGroup)), hint)
  }

  function NodesAt(p: Plan, raw: Raw, groups: seq<Group>): seq<Inode>
    requires p.Ok()
  {
    seq(p.groups * p.geo.inodesPerGroup,
        n requires 0 <= n => NodeAt(BlockAt(raw, NodeBlock(p, groups, n + 1)), NodeOffset(p, n + 1)))
  }

  /** Only data blocks are looked at as such. */
  function DataAt(p: Plan, raw: Raw, groups: seq<Group>): seq<seq<Byte>>
    requires p.Ok()
  {
    seq(p.geo.blocks, b requires 0 <= b => if DataBlock(p.geo, groups, b) then BlockAt(raw, b) else ZeroBlock())
  }

  /** The volume those bytes stand for; the hints and the owners are not on the disk. */
  ghost function Decode(p: Plan, raw: Raw, hints: (nat, nat), owner: map<nat, Slot>): Vol
    requires p.Ok()
  {
    var groups := GroupsAt(raw.table, p.groups);
    Vol(p.geo, groups, BlockPool(p, raw, groups, hints.0), InodePool(p, raw, groups, hints.1),
        NodesAt(p, raw, groups), DataAt(p, raw, groups), owner)
  }

  // ------------------------------------------------------------ nothing overlaps

  /** A group's bitmaps and table belong to it alone, and hold no data. */
  lemma OwnApart(geo: Geometry, groups: seq<Group>, g: nat, b: nat)
    requires Laid(geo, groups) && g < |groups| && OwnBlock(geo, groups[g], b)
    ensures geo.perGroup > 0 && 0 < b < geo.blocks && GroupOf(geo, b) == g && !DataBlock(geo, groups, b)
  {
    assert GroupFits(geo, groups[g], g);
    BlockPlace(geo, g, b - GroupStart(geo, g));
  }

  lemma OwnDiffer(geo: Geometry, groups: seq<Group>, g: nat, h: nat, b: nat, c: nat)
    requires Laid(geo, groups) && g < |groups| && h < |groups| && OwnBlock(geo, groups[g], b) && OwnBlock(geo, groups[h], c)
    ensures b == c ==> g == h
  {
    OwnApart(geo, groups, g, b);
    OwnApart(geo, groups, h, c);
  }

  /** In one group the two bitmaps and the table are apart. */
  lemma MapsApart(geo: Geometry, groups: seq<Group>, g: nat)
    requires Laid(geo, groups) && g < |groups|
    ensures groups[g].blockMap != groups[g].inodeMap
    ensures !InTable(geo, groups[g], groups[g].blockMap) && !InTable(geo, groups[g], groups[g].inodeMap)
  {
    assert GroupFits(geo, groups[g], g);
  }

  lemma IndexFacts(n: nat, groups: nat, per: nat)
    requires per > 0 && 1 <= n <= groups * per
    ensures (n - 1) / per < groups && (n - 1) % per < per
  {
    var g, index := (n - 1) / per, (n - 1) % per;
    assert n - 1 == per * g + index;
    if g >= groups {
      ProductNonNegative(g - groups, per);
    }
  }

  lemma IndexRoom(i: nat, per: nat, size: nat, blocks: nat)
    requires i < per && size in {128, 256} && per * size == blocks * BLOCK
    ensures i * size / BLOCK < blocks && i * size % BLOCK + size <= BLOCK
  {
    if size == 128 {
      assert i * 128 + 128 <= blocks * BLOCK;
    } else {
      assert i * 256 + 256 <= blocks * BLOCK;
    }
  }

  lemma SameIndex(p: Plan, m: nat, n: nat)
    requires p.Ok() && m > 0 && n > 0 && NodeGroup(p, m) == NodeGroup(p, n) && NodeIndex(p, m) == NodeIndex(p, n)
    ensures m == n
  {
    assert m - 1 == p.geo.inodesPerGroup * NodeGroup(p, m) + NodeIndex(p, m);
    assert n - 1 == p.geo.inodesPerGroup * NodeGroup(p, n) + NodeIndex(p, n);
  }

  /** An inode of the volume is in its group's table. */
  lemma NodePlace(p: Plan, groups: seq<Group>, n: nat)
    requires p.Ok() && |groups| == p.groups && 1 <= n <= p.groups * p.geo.inodesPerGroup
    ensures NodeGroup(p, n) < |groups| && InTable(p.geo, groups[NodeGroup(p, n)], NodeBlock(p, groups, n))
    ensures NodeOffset(p, n) + p.inodeSize <= BLOCK
  {
    IndexFacts(n, p.groups, p.geo.inodesPerGroup);
    IndexRoom((n - 1) % p.geo.inodesPerGroup, p.geo.inodesPerGroup, p.inodeSize, p.geo.tableBlocks);
  }

  /** Two inodes in the same block are apart in it. */
  lemma NodesApart(p: Plan, groups: seq<Group>, m: nat, n: nat)
    requires p.Ok() && Laid(p.geo, groups) && |groups| == p.groups
    requires 1 <= m <= p.groups * p.geo.inodesPerGroup && 1 <= n <= p.groups * p.geo.inodesPerGroup && m != n
    requires NodeBlock(p, groups, m) == NodeBlock(p, groups, n)
    ensures NodeOffset(p, m) + p.inodeSize <= NodeOffset(p, n) || NodeOffset(p, n) + p.inodeSize <= NodeOffset(p, m)
  {
    hide Laid, NodeGroup, NodeIndex, InTable;
    NodePlace(p, groups, m);
    NodePlace(p, groups, n);
    OwnDiffer(p.geo, groups, NodeGroup(p, m), NodeGroup(p, n), NodeBlock(p, groups, m), NodeBlock(p, groups, n));
    if NodeIndex(p, m) == NodeIndex(p, n) {
      SameIndex(p, m, n);
    }
    ApartIn(NodeIndex(p, m), NodeIndex(p, n), p.inodeSize);
  }

  lemma ApartIn(i: nat, j: nat, size: nat)
    requires i != j && size in {128, 256} && i * size / BLOCK == j * size / BLOCK
    ensures i * size % BLOCK + size <= j * size % BLOCK || j * size % BLOCK + size <= i * size % BLOCK
  {
    if size == 128 {
      assert i * 128 / BLOCK == j * 128 / BLOCK;
    } else {
      assert i * 256 / BLOCK == j * 256 / BLOCK;
    }
  }

  // ------------------------------------------------------------ stores into blocks

  /** A store through the pointer block(b) gave. */
  function Stored(raw: Raw, b: nat, c: seq<Byte>): Raw {
    if b < |raw.blocks| then raw.(blocks := raw.blocks[b := c]) else raw
  }

  /** The bytes of a volume that engine_init accepts, as far as its descriptors go. */
  predicate Ready(p: Plan, raw: Raw) {
    && p.Ok() && Laid(p.geo, GroupsAt(raw.table, p.groups))
    && |raw.blocks| == p.geo.blocks && |raw.super| == BLOCK && 32 * p.groups <= |raw.table|
  }

  predicate SameAt(raw: Raw, next: Raw, b: nat) {
    BlockAt(next, b) == BlockAt(raw, b)
  }

  /** The bitmaps of all groups but, perhaps, the block bitmap of `g` and the inode bitmap of `h`. */
  lemma PoolsKept(p: Plan, raw: Raw, next: Raw, groups: seq<Group>, g: nat, h: nat, hints: (nat, nat))
    requires p.Ok() && next.super == raw.super && next.table == raw.table
    requires forall k :: 0 <= k < |groups| ==> (k != g ==> SameAt(raw, next, groups[k].blockMap)) && (k != h ==> SameAt(raw, next, groups[k].inodeMap))
    ensures g < |groups| ==>
      (var was := BlockPool(p, raw, groups, hints.0);
       BlockPool(p, next, groups, hints.0) == was.(bits := was.bits[g := BitsAt(BlockAt(next, groups[g].blockMap), GroupSize(p.geo, g))]))
    ensures g >= |groups| ==> BlockPool(p, next, groups, hints.0) == BlockPool(p, raw, groups, hints.0)
    ensures h < |groups| ==>
      (var was := InodePool(p, raw, groups, hints.1);
       InodePool(p, next, groups, hints.1) == was.(bits := was.bits[h := BitsAt(BlockAt(next, groups[h].inodeMap), p.geo.inodesPerGroup)]))
    ensures h >= |groups| ==> InodePool(p, next, groups, hints.1) == InodePool(p, raw, groups, hints.1)
  {
    hide GroupSize, BlockAt, Get16, Get32, BitsAt;
    var b, b', i, i' := BlockPool(p, raw, groups, hints.0), BlockPool(p, next, groups, hints.0),
                        InodePool(p, raw, groups, hints.1), InodePool(p, next, groups, hints.1);
    assert b'.groupFree == b.groupFree && i'.groupFree == i.groupFree;
    if g < |groups| {
      assert b'.bits == b.bits[g := BitsAt(BlockAt(next, groups[g].blockMap), GroupSize(p.geo, g))];
    } else {
      assert b'.bits == b.bits;
    }
    if h < |groups| {
      assert i'.bits == i.bits[h := BitsAt(BlockAt(next, groups[h].inodeMap), p.geo.inodesPerGroup)];
    } else {
      assert i'.bits == i.bits;
    }
  }

  lemma NodesKept(p: Plan, raw: Raw, next: Raw, groups: seq<Group>)
    requires p.Ok() && |groups| == p.groups
    requires forall n :: 1 <= n <= p.groups * p.geo.inodesPerGroup ==> SameAt(raw, next, NodeBlock(p, groups, n))
    ensures NodesAt(p, next, groups) == NodesAt(p, raw, groups)
  {
    hide BlockAt, NodeBlock, NodeOffset, NodeAt;
    forall n | 0 <= n < p.groups * p.geo.inodesPerGroup ensures NodesAt(p, next, groups)[n] == NodesAt(p, raw, groups)[n] {
      assert SameAt(raw, next, NodeBlock(p, groups, n + 1));
    }
  }

  lemma DataKept(p: Plan, raw: Raw, next: Raw, groups: seq<Group>)
    requires p.Ok() && forall b: nat :: DataBlock(p.geo, groups, b) ==> SameAt(raw, next, b)
    ensures DataAt(p, next, groups) == DataAt(p, raw, groups)
  {
    hide BlockAt, DataBlock;
  }

  lemma StoredAt(raw: Raw, b: nat, c: seq<Byte>, x: nat)
    requires b < |raw.blocks| && |c| == BLOCK
    ensures BlockAt(Stored(raw, b, c), x) == if x == b then c else BlockAt(raw, x)
  {
  }

  /** Every inode is in a table, and no table holds data or a bitmap. */
  lemma TablesApart(p: Plan, raw: Raw, b: nat, c: seq<Byte>)
    requires Ready(p, raw) && b < |raw.blocks| && |c| == BLOCK
    requires forall g :: 0 <= g < p.groups ==> !InTable(p.geo, GroupsAt(raw.table, p.groups)[g], b)
    ensures forall n :: 1 <= n <= p.groups * p.geo.inodesPerGroup ==> SameAt(raw, Stored(raw, b, c), NodeBlock(p, GroupsAt(raw.table, p.groups), n))
  {
    hide Laid, BlockAt, NodeBlock, NodeOffset, NodeGroup, InTable;
    var groups := GroupsAt(raw.table, p.groups);
    forall n | 1 <= n <= p.groups * p.geo.inodesPerGroup ensures SameAt(raw, Stored(raw, b, c), NodeBlock(p, groups, n)) {
      NodePlace(p, groups, n);
      StoredAt(raw, b, c, NodeBlock(p, groups, n));
    }
  }

  /** A store into a data block. */
  lemma DataStored(p: Plan, raw: Raw, b: nat, c: seq<Byte>, hints: (nat, nat), owner: map<nat, Slot>)
    requires Ready(p, raw) && |c| == BLOCK && DataBlock(p.geo, GroupsAt(raw.table, p.groups), b)
    ensures var v := Decode(p, raw, hints, owner);
      b < |v.data| && Decode(p, Stored(raw, b, c), hints, owner) == v.(data := v.data[b := c])
  {
    hide Laid, BlockAt, NodeBlock, NodeOffset, NodeAt, DataBlock, GroupsAt, BlockPool, InodePool, NodesAt;
    var groups, next := GroupsAt(raw.table, p.groups), Stored(raw, b, c);
    DataBlockRange(p.geo, groups, b);
    forall x: nat ensures x != b ==> SameAt(raw, next, x) {
      StoredAt(raw, b, c, x);
    }
    forall g | 0 <= g < |groups|
      ensures SameAt(raw, next, groups[g].blockMap) && SameAt(raw, next, groups[g].inodeMap) && !InTable(p.geo, groups[g], b)
    {
      DataOutside(p.geo, groups, g, b);
    }
    PoolsKept(p, raw, next, groups, |groups|, |groups|, hints);
    TablesApart(p, raw, b, c);
    NodesKept(p, raw, next, groups);
    StoredAt(raw, b, c, b);
    var now, was := DataAt(p, next, groups), DataAt(p, raw, groups);
    forall x | 0 <= x < p.geo.blocks ensures now[x] == if x == b then c else was[x] {
      if x != b {
        assert SameAt(raw, next, x);
      }
    }
    assert now == was[b := c];
  }

  lemma DataOutside(geo: Geometry, groups: seq<Group>, g: nat, b: nat)
    requires Laid(geo, groups) && g < |groups| && geo.perGroup > 0 && DataBlock(geo, groups, b)
    ensures b != groups[g].blockMap && b != groups[g].inodeMap && !InTable(geo, groups[g], b)
  {
    hide DataBlock, Laid;
    if OwnBlock(geo, groups[g], b) {
      OwnApart(geo, groups, g, b);
    }
  }

  /** setbit in a block bitmap. */
  lemma BlockBitStored(p: Plan, raw: Raw, g: nat, i: nat, used: bool, hints: (nat, nat), owner: map<nat, Slot>)
    requires Ready(p, raw) && g < p.groups && i < GroupSize(p.geo, g)
    ensures var v := Decode(p, raw, hints, owner);
      && v.blocks.Has(g, i)
      && Decode(p, Stored(raw, v.groups[g].blockMap, SetBit(BlockAt(raw, v.groups[g].blockMap), i, used)), hints, owner)
         == v.(blocks := v.blocks.(bits := v.blocks.bits[g := v.blocks.bits[g][i := used]]))
  {
    var groups := GroupsAt(raw.table, p.groups);
    var b := groups[g].blockMap;
    var c := SetBit(BlockAt(raw, b), i, used);
    var next := Stored(raw, b, c);
    PerGroup(p, raw, g);
    MapsApart(p.geo, groups, g);
    OwnApart(p.geo, groups, g, b);
    hide Laid, BlockAt, NodeBlock, NodeOffset, NodeAt, DataBlock, GroupsAt, SetBit, Bit, GroupSize, InTable, GroupOf;
    BitsSet(BlockAt(raw, b), i, used, GroupSize(p.geo, g));
    MapStored(p, raw, groups, g, b, c, hints, true);
    StoredAt(raw, b, c, b);
  }

  /** setbit in an inode bitmap. */
  lemma InodeBitStored(p: Plan, raw: Raw, g: nat, i: nat, used: bool, hints: (nat, nat), owner: map<nat, Slot>)
    requires Ready(p, raw) && g < p.groups && i < p.geo.inodesPerGroup
    ensures var v := Decode(p, raw, hints, owner);
      && v.inodes.Has(g, i)
      && Decode(p, Stored(raw, v.groups[g].inodeMap, SetBit(BlockAt(raw, v.groups[g].inodeMap), i, used)), hints, owner)
         == v.(inodes := v.inodes.(bits := v.inodes.bits[g := v.inodes.bits[g][i := used]]))
  {
    var groups := GroupsAt(raw.table, p.groups);
    var b := groups[g].inodeMap;
    var c := SetBit(BlockAt(raw, b), i, used);
    var next := Stored(raw, b, c);
    PerGroup(p, raw, g);
    MapsApart(p.geo, groups, g);
    OwnApart(p.geo, groups, g, b);
    hide Laid, BlockAt, NodeBlock, NodeOffset, NodeAt, DataBlock, GroupsAt, SetBit, Bit, GroupSize, InTable, GroupOf;
    BitsSet(BlockAt(raw, b), i, used, p.geo.inodesPerGroup);
    MapStored(p, raw, groups, g, b, c, hints, false);
    StoredAt(raw, b, c, b);
  }

  lemma PerGroup(p: Plan, raw: Raw, g: nat)
    requires Ready(p, raw) && g < p.groups
    ensures GroupSize(p.geo, g) <= 8192 && p.geo.inodesPerGroup <= 8192 && |GroupsAt(raw.table, p.groups)| == p.groups
  {
  }

  lemma BitsSet(block: seq<Byte>, i: nat, used: bool, n: nat)
    requires |block| == BLOCK && i < n <= 8192
    ensures BitsAt(SetBit(block, i, used), n) == BitsAt(block, n)[i := used]
  {
    hide SetBit, Bit;
    forall j | 0 <= j < n ensures BitsAt(SetBit(block, i, used), n)[j] == BitsAt(block, n)[i := used][j] {
      SetBitReads(block, i, used, j);
    }
  }

  function WithBits(pool: Pool, g: nat, bits: seq<bool>): Pool {
    if g < |pool.bits| then pool.(bits := pool.bits[g := bits]) else pool
  }

  predicate MapChanged(p: Plan, raw: Raw, next: Raw, groups: seq<Group>, g: nat, c: seq<Byte>, hints: (nat, nat), ofBlocks: bool) {
    && p.Ok()
    && NodesAt(p, next, groups) == NodesAt(p, raw, groups) && DataAt(p, next, groups) == DataAt(p, raw, groups)
    && BlockPool(p, next, groups, hints.0) ==
       (if ofBlocks then WithBits(BlockPool(p, raw, groups, hints.0), g, BitsAt(c, GroupSize(p.geo, g)))
        else BlockPool(p, raw, groups, hints.0))
    && InodePool(p, next, groups, hints.1) ==
       (if ofBlocks then InodePool(p, raw, groups, hints.1)
        else WithBits(InodePool(p, raw, groups, hints.1), g, BitsAt(c, p.geo.inodesPerGroup)))
  }

  /** A store into one bitmap of group `g` changes nothing else that is decoded. */
  lemma MapStored(p: Plan, raw: Raw, groups: seq<Group>, g: nat, b: nat, c: seq<Byte>, hints: (nat, nat), ofBlocks: bool)
    requires Ready(p, raw) && groups == GroupsAt(raw.table, p.groups) && |groups| == p.groups && g < p.groups && |c| == BLOCK
    requires b == if ofBlocks then groups[g].blockMap else groups[g].inodeMap
    ensures b < |raw.blocks| && MapChanged(p, raw, Stored(raw, b, c), groups, g, c, hints, ofBlocks)
  {
    MapsApart(p.geo, groups, g);
    OwnApart(p.geo, groups, g, b);
    hide Laid, BlockAt, NodeBlock, NodeOffset, NodeAt, GroupsAt, GroupSize, GroupOf, NodesAt, DataAt;
    var next := Stored(raw, b, c);
    forall x: nat ensures BlockAt(next, x) == if x == b then c else BlockAt(raw, x) {
      StoredAt(raw, b, c, x);
    }
    forall k | 0 <= k < |groups| && k != g
      ensures groups[k].blockMap != b && groups[k].inodeMap != b && !InTable(p.geo, groups[k], b)
    {
      hide InTable;
      if OwnBlock(p.geo, groups[k], b) {
        OwnDiffer(p.geo, groups, g, k, b, b);
      }
    }
    hide InTable, DataBlock;
    PoolsKept(p, raw, next, groups, if ofBlocks then g else |groups|, if ofBlocks then |groups| else g, hints);
    TablesApart(p, raw, b, c);
    NodesKept(p, raw, next, groups);
    DataKept(p, raw, next, groups);
  }

  // ------------------------------------------------------------ stores into inodes

  lemma Apart16(s: seq<Byte>, t: seq<Byte>, at: nat)
    requires |s| == |t| && at + 2 <= |s| && s[at] == t[at] && s[at + 1] == t[at + 1]
    ensures Get16(t, at) == Get16(s, at)
  {
  }

  lemma Apart32(s: seq<Byte>, t: seq<Byte>, at: nat)
    requires |s| == |t| && at + 4 <= |s| && forall i :: at <= i < at + 4 ==> s[i] == t[i]
    ensures Get32(t, at) == Get32(s, at)
  {
  }

  const NODE_END := 92

  /** An inode is read from its own bytes. */
  lemma NodeLocal(s: seq<Byte>, t: seq<Byte>, at: nat)
    requires |s| == |t| && at + NODE_END <= |s| && forall i :: at <= i < at + NODE_END ==> s[i] == t[i]
    ensures NodeAt(t, at) == NodeAt(s, at)
  {
    hide Get16, Get32;
    Apart16(s, t, at);
    Apart16(s, t, at + 26);
    Apart32(s, t, at + 4);
    Apart32(s, t, at + 28);
    Apart32(s, t, at + 20);
    forall k | 0 <= k < 13 ensures Get32(t, at + 40 + 4 * k) == Get32(s, at + 40 + 4 * k) {
      Apart32(s, t, at + 40 + 4 * k);
    }
    assert NodeAt(t, at).ptr == NodeAt(s, at).ptr;
  }

  /** Nothing but these bytes changed. */
  ghost predicate Only(s: seq<Byte>, t: seq<Byte>, at: nat, count: nat) {
    |s| == |t| && forall i :: 0 <= i < |s| && !(at <= i < at + count) ==> t[i] == s[i]
  }

  lemma PutOnly(s: seq<Byte>, at: nat, v: nat)
    ensures Only(s, Put16(s, at, v), at, 2) && (v < U32 ==> Only(s, Put32(s, at, v), at, 4))
  {
  }

  /** put16 into one of its fields changes that field: 0 the mode, 26 the links. */
  lemma NodePut16(s: seq<Byte>, at: nat, field: nat, v: nat)
    requires at + NODE_END <= |s| && field in {0, 26} && v < 0x1_0000
    ensures NodeAt(Put16(s, at + field, v), at) == if field == 0 then NodeAt(s, at).(mode := v) else NodeAt(s, at).(links := v)
  {
    PutGet16(s, at + field, v);
    PutOnly(s, at + field, v);
    Field16(s, Put16(s, at + field, v), at, field);
  }

  lemma Field16(s: seq<Byte>, t: seq<Byte>, at: nat, field: nat)
    requires at + NODE_END <= |s| && field in {0, 26} && Only(s, t, at + field, 2)
    ensures NodeAt(t, at) == if field == 0 then NodeAt(s, at).(mode := Get16(t, at)) else NodeAt(s, at).(links := Get16(t, at + 26))
  {
    hide Get16, Get32;
    Apart16(s, t, at + 26 - field);
    Apart32(s, t, at + 4);
    Apart32(s, t, at + 28);
    Apart32(s, t, at + 20);
    forall k | 0 <= k < 13 ensures Get32(t, at + 40 + 4 * k) == Get32(s, at + 40 + 4 * k) {
      Apart32(s, t, at + 40 + 4 * k);
    }
    assert NodeAt(t, at).ptr == NodeAt(s, at).ptr;
  }

  /** put32 likewise: 4 the size, 20 the deletion time, 28 the block count, and the pointers. */
  lemma NodePut32(s: seq<Byte>, at: nat, field: nat, v: Word)
    requires at + NODE_END <= |s| && field in {4, 20, 28}
    ensures NodeAt(Put32(s, at + field, v), at) ==
      if field == 4 then NodeAt(s, at).(size := v) else if field == 20 then NodeAt(s, at).(deleted := v) else NodeAt(s, at).(sectors := v)
  {
    PutGet32(s, at + field, v);
    PutOnly(s, at + field, v);
    Field32(s, Put32(s, at + field, v), at, field);
  }

  lemma Field32(s: seq<Byte>, t: seq<Byte>, at: nat, field: nat)
    requires at + NODE_END <= |s| && field in {4, 20, 28} && Only(s, t, at + field, 4)
    ensures NodeAt(t, at) ==
      if field == 4 then NodeAt(s, at).(size := Get32(t, at + 4))
      else if field == 20 then NodeAt(s, at).(deleted := Get32(t, at + 20)) else NodeAt(s, at).(sectors := Get32(t, at + 28))
  {
    hide Get16, Get32;
    Apart16(s, t, at);
    Apart16(s, t, at + 26);
    if field != 4 { Apart32(s, t, at + 4); }
    if field != 20 { Apart32(s, t, at + 20); }
    if field != 28 { Apart32(s, t, at + 28); }
    forall k | 0 <= k < 13 ensures Get32(t, at + 40 + 4 * k) == Get32(s, at + 40 + 4 * k) {
      Apart32(s, t, at + 40 + 4 * k);
    }
    assert NodeAt(t, at).ptr == NodeAt(s, at).ptr;
  }

  lemma NodePutPointer(s: seq<Byte>, at: nat, k: nat, v: Word)
    requires at + NODE_END <= |s| && k < 13
    ensures NodeAt(Put32(s, at + 40 + 4 * k, v), at) == NodeAt(s, at).(ptr := NodeAt(s, at).ptr[k := v])
  {
    PutGet32(s, at + 40 + 4 * k, v);
    PutOnly(s, at + 40 + 4 * k, v);
    FieldPointer(s, Put32(s, at + 40 + 4 * k, v), at, k);
  }

  lemma FieldPointer(s: seq<Byte>, t: seq<Byte>, at: nat, k: nat)
    requires at + NODE_END <= |s| && k < 13 && Only(s, t, at + 40 + 4 * k, 4)
    ensures NodeAt(t, at) == NodeAt(s, at).(ptr := NodeAt(s, at).ptr[k := Get32(t, at + 40 + 4 * k)])
  {
    hide Get16, Get32;
    Apart16(s, t, at);
    Apart16(s, t, at + 26);
    Apart32(s, t, at + 4);
    Apart32(s, t, at + 20);
    Apart32(s, t, at + 28);
    forall j | 0 <= j < 13 && j != k ensures Get32(t, at + 40 + 4 * j) == Get32(s, at + 40 + 4 * j) {
      Apart32(s, t, at + 40 + 4 * j);
    }
    assert NodeAt(t, at).ptr == NodeAt(s, at).ptr[k := Get32(t, at + 40 + 4 * k)];
  }

  /** memset of an inode clears it. */
  lemma NodeCleared(s: seq<Byte>, at: nat, size: nat)
    requires at + size <= |s| && size >= NODE_END
    ensures NodeAt(Splice(s, at, Zeros(size)), at) == BlankNode(0, 0, 0)
  {
    var t := Splice(s, at, Zeros(size));
    assert forall i :: at <= i < at + size ==> t[i] == 0;
    assert NodeAt(t, at).ptr == BlankNode(0, 0, 0).ptr;
  }

  /** A store inside inode `n` changes that inode. */
  lemma NodeStored(p: Plan, raw: Raw, n: nat, c: seq<Byte>, hints: (nat, nat), owner: map<nat, Slot>)
    requires Ready(p, raw) && 1 <= n <= p.groups * p.geo.inodesPerGroup && |c| == BLOCK
    requires Only(BlockAt(raw, NodeBlock(p, GroupsAt(raw.table, p.groups), n)), c, NodeOffset(p, n), p.inodeSize)
    ensures var v := Decode(p, raw, hints, owner);
      n <= |v.nodes| && Decode(p, Stored(raw, NodeBlock(p, v.groups, n), c), hints, owner) == v.(nodes := v.nodes[n - 1 := NodeAt(c, NodeOffset(p, n))])
  {
    hide Laid, BlockAt, NodeBlock, NodeOffset, NodeGroup, GroupsAt, GroupSize, BlockPool, InodePool, NodeAt, NodesAt, DataAt, Only, Stored;
    var groups := GroupsAt(raw.table, p.groups);
    NodePlace(p, groups, n);
    ReadyStored(p, raw, NodeBlock(p, groups, n), c);
    TableStored(p, raw, groups, n, c, hints);
    TableNodes(p, raw, groups, n, c);
  }

  lemma TableNodes(p: Plan, raw: Raw, groups: seq<Group>, n: nat, c: seq<Byte>)
    requires Ready(p, raw) && groups == GroupsAt(raw.table, p.groups) && 1 <= n <= p.groups * p.geo.inodesPerGroup && |c| == BLOCK
    requires Only(BlockAt(raw, NodeBlock(p, groups, n)), c, NodeOffset(p, n), p.inodeSize)
    ensures n <= |NodesAt(p, raw, groups)|
    ensures NodesAt(p, Stored(raw, NodeBlock(p, groups, n), c), groups) == NodesAt(p, raw, groups)[n - 1 := NodeAt(c, NodeOffset(p, n))]
  {
    NodePlace(p, groups, n);
    OwnApart(p.geo, groups, NodeGroup(p, n), NodeBlock(p, groups, n));
    hide Laid, BlockAt, NodeBlock, NodeOffset, NodeGroup, GroupsAt, GroupSize, GroupOf, NodeAt, InTable, DataBlock, Only, Stored;
    var b := NodeBlock(p, groups, n);
    forall m | 0 <= m < p.groups * p.geo.inodesPerGroup
      ensures NodesAt(p, Stored(raw, b, c), groups)[m] == if m == n - 1 then NodeAt(c, NodeOffset(p, n)) else NodesAt(p, raw, groups)[m]
    {
      StoredAt(raw, b, c, NodeBlock(p, groups, m + 1));
      if m != n - 1 {
        OtherNode(p, raw, groups, n, m + 1, c);
      }
    }
  }

  /** A store into the block of an inode changes no bitmap and no data. */
  lemma TableStored(p: Plan, raw: Raw, groups: seq<Group>, n: nat, c: seq<Byte>, hints: (nat, nat))
    requires Ready(p, raw) && groups == GroupsAt(raw.table, p.groups) && 1 <= n <= p.groups * p.geo.inodesPerGroup && |c| == BLOCK
    ensures var next := Stored(raw, NodeBlock(p, groups, n), c);
      && BlockPool(p, next, groups, hints.0) == BlockPool(p, raw, groups, hints.0)
      && InodePool(p, next, groups, hints.1) == InodePool(p, raw, groups, hints.1)
      && DataAt(p, next, groups) == DataAt(p, raw, groups)
  {
    var b, g := NodeBlock(p, groups, n), NodeGroup(p, n);
    NodePlace(p, groups, n);
    MapsApart(p.geo, groups, g);
    OwnApart(p.geo, groups, g, b);
    hide Laid, BlockAt, NodeBlock, NodeOffset, NodeGroup, GroupsAt, GroupSize, GroupOf, BlockPool, InodePool, NodeAt, DataAt;
    var next := Stored(raw, b, c);
    forall x: nat ensures BlockAt(next, x) == if x == b then c else BlockAt(raw, x) {
      StoredAt(raw, b, c, x);
    }
    forall k | 0 <= k < |groups| ensures groups[k].blockMap != b && groups[k].inodeMap != b {
      if OwnBlock(p.geo, groups[k], b) {
        OwnDiffer(p.geo, groups, g, k, b, b);
      }
    }
    hide InTable, DataBlock;
    PoolsKept(p, raw, next, groups, |groups|, |groups|, hints);
    DataKept(p, raw, next, groups);
  }

  lemma OtherNode(p: Plan, raw: Raw, groups: seq<Group>, n: nat, m: nat, c: seq<Byte>)
    requires p.Ok() && Laid(p.geo, groups) && |groups| == p.groups && |c| == BLOCK
    requires 1 <= n <= p.groups * p.geo.inodesPerGroup && 1 <= m <= p.groups * p.geo.inodesPerGroup && m != n
    requires Only(BlockAt(raw, NodeBlock(p, groups, n)), c, NodeOffset(p, n), p.inodeSize)
    ensures NodeBlock(p, groups, m) == NodeBlock(p, groups, n) ==>
      NodeAt(c, NodeOffset(p, m)) == NodeAt(BlockAt(raw, NodeBlock(p, groups, m)), NodeOffset(p, m))
  {
    hide Laid, BlockAt, NodeBlock, NodeOffset, NodeGroup, NodeAt;
    if NodeBlock(p, groups, m) == NodeBlock(p, groups, n) {
      NodesApart(p, groups, m, n);
      NodePlace(p, groups, m);
      NodeLocal(BlockAt(raw, NodeBlock(p, groups, m)), c, NodeOffset(p, m));
    }
  }

  // ------------------------------------------------------------ counts

  /** put32 and put16 of the free counts, of blocks or of inodes. */
  function Counted(raw: Raw, inodes: bool, g: nat, free: Word, groupFree: nat): Raw {
    raw.(super := Put32(raw.super, if inodes then 16 else 12, free), table := Put16(raw.table, 32 * g + if inodes then 14 else 12, groupFree))
  }

  lemma CountedFields(raw: Raw, inodes: bool, g: nat, n: nat, free: Word, groupFree: nat)
    requires g < n && 32 * n <= |raw.table| && |raw.super| == BLOCK && groupFree < 0x1_0000
    ensures var next := Counted(raw, inodes, g, free, groupFree);
      && GroupsAt(next.table, n) == GroupsAt(raw.table, n)
      && Get32(next.super, 12) == (if inodes then Get32(raw.super, 12) else free)
      && Get32(next.super, 16) == (if inodes then free else Get32(raw.super, 16))
      && forall h :: 0 <= h < n ==>
           && Get16(next.table, 32 * h + 12) == (if h == g && !inodes then groupFree else Get16(raw.table, 32 * h + 12))
           && Get16(next.table, 32 * h + 14) == (if h == g && inodes then groupFree else Get16(raw.table, 32 * h + 14))
  {
    hide Get16, Get32, Put16, Put32, GroupAt;
    SuperCounted(raw.super, if inodes then 16 else 12, free);
    var next := Counted(raw, inodes, g, free, groupFree);
    forall h | 0 <= h < n
      ensures GroupAt(next.table, h) == GroupAt(raw.table, h)
      ensures Get16(next.table, 32 * h + 12) == (if h == g && !inodes then groupFree else Get16(raw.table, 32 * h + 12))
      ensures Get16(next.table, 32 * h + 14) == (if h == g && inodes then groupFree else Get16(raw.table, 32 * h + 14))
    {
      TableCounted(raw.table, 32 * g + if inodes then 14 else 12, groupFree, g, h);
    }
    assert GroupsAt(next.table, n) == GroupsAt(raw.table, n);
  }

  lemma SuperCounted(super: seq<Byte>, at: nat, free: Word)
    requires |super| == BLOCK && at in {12, 16}
    ensures Get32(Put32(super, at, free), at) == free && Get32(Put32(super, at, free), 28 - at) == Get32(super, 28 - at)
  {
    PutGet32(super, at, free);
    PutOnly(super, at, free);
    hide Get32, Put32;
    Apart32(super, Put32(super, at, free), 28 - at);
  }

  lemma TableCounted(table: seq<Byte>, at: nat, count: nat, g: nat, h: nat)
    requires at in {32 * g + 12, 32 * g + 14} && 32 * g + 32 <= |table| && 32 * h + 32 <= |table| && count < 0x1_0000
    ensures var next := Put16(table, at, count);
      && GroupAt(next, h) == GroupAt(table, h)
      && Get16(next, 32 * h + 12) == (if at == 32 * h + 12 then count else Get16(table, 32 * h + 12))
      && Get16(next, 32 * h + 14) == (if at == 32 * h + 14 then count else Get16(table, 32 * h + 14))
  {
    hide Get16, Get32, Put16, GroupAt, Only;
    PutGet16(table, at, count);
    PutOnly(table, at, count);
    TableElse(table, Put16(table, at, count), at, g, h);
  }

  lemma TableElse(table: seq<Byte>, next: seq<Byte>, at: nat, g: nat, h: nat)
    requires at in {32 * g + 12, 32 * g + 14} && 32 * g + 32 <= |table| && 32 * h + 32 <= |table| && Only(table, next, at, 2)
    ensures GroupAt(next, h) == GroupAt(table, h)
    ensures at != 32 * h + 12 ==> Get16(next, 32 * h + 12) == Get16(table, 32 * h + 12)
    ensures at != 32 * h + 14 ==> Get16(next, 32 * h + 14) == Get16(table, 32 * h + 14)
  {
    hide Get16, Get32;
    Apart32(table, next, 32 * h);
    Apart32(table, next, 32 * h + 4);
    Apart32(table, next, 32 * h + 8);
    Apart16(table, next, 32 * h + 16);
    if at != 32 * h + 12 { Apart16(table, next, 32 * h + 12); }
    if at != 32 * h + 14 { Apart16(table, next, 32 * h + 14); }
  }

  lemma CountsStored(p: Plan, raw: Raw, inodes: bool, g: nat, free: Word, groupFree: nat, hints: (nat, nat), owner: map<nat, Slot>)
    requires Ready(p, raw) && g < p.groups && groupFree < 0x1_0000
    ensures var v, next := Decode(p, raw, hints, owner), Counted(raw, inodes, g, free, groupFree);
      && g < |v.blocks.groupFree| && g < |v.inodes.groupFree| && Ready(p, next)
      && Decode(p, next, hints, owner) ==
         if inodes then v.(inodes := v.inodes.(free := free, groupFree := v.inodes.groupFree[g := groupFree]))
         else v.(blocks := v.blocks.(free := free, groupFree := v.blocks.groupFree[g := groupFree]))
  {
    hide Get16, Get32, Put16, Put32, GroupsAt, Laid, BitsAt, NodesAt, DataAt, GroupSize;
    var groups, next := GroupsAt(raw.table, p.groups), Counted(raw, inodes, g, free, groupFree);
    CountedFields(raw, inodes, g, p.groups, free, groupFree);
    NodesKept(p, raw, next, groups);
    DataKept(p, raw, next, groups);
    var b, b', i, i' := BlockPool(p, raw, groups, hints.0), BlockPool(p, next, groups, hints.0),
                        InodePool(p, raw, groups, hints.1), InodePool(p, next, groups, hints.1);
    assert b'.bits == b.bits && i'.bits == i.bits;
    if inodes {
      assert i'.groupFree == i.groupFree[g := groupFree] && b'.groupFree == b.groupFree;
    } else {
      assert b'.groupFree == b.groupFree[g := groupFree] && i'.groupFree == i.groupFree;
    }
  }

  // ------------------------------------------------------------ allocate and release

  /** allocate(0) of the block with bit `i` in group `g`: the bit, the counts, and the block cleared. */
  function BlockTaken(p: Plan, raw: Raw, g: nat, i: nat): Raw {
    var marked := Stored(raw, GroupAt(raw.table, g).blockMap, SetBit(BlockAt(raw, GroupAt(raw.table, g).blockMap), i, true));
    Stored(Counted(marked, false, g, Less(Get32(raw.super, 12)), Less(Get16(raw.table, 32 * g + 12))),
           BlockNo(p.geo, g, i), ZeroBlock())
  }

  /** release(b, 0). */
  function BlockGiven(p: Plan, raw: Raw, g: nat, i: nat): Raw {
    var marked := Stored(raw, GroupAt(raw.table, g).blockMap, SetBit(BlockAt(raw, GroupAt(raw.table, g).blockMap), i, false));
    Counted(marked, false, g, More(Get32(raw.super, 12)), More(Get16(raw.table, 32 * g + 12)))
  }

  function Less(x: nat): (r: Word)
    ensures x < U32 ==> r < U32
  {
    if x == 0 then U32 - 1 else if x - 1 < U32 then x - 1 else 0
  }

  function More(x: nat): Word {
    if x + 1 < U32 then x + 1 else 0
  }

  /** What allocate(0) does to the volume. */
  ghost predicate Takes(v: Vol, w: Vol, g: nat, i: nat, n: nat) {
    && v.blocks.Has(g, i) && g < |v.blocks.groupFree| && v.blocks.free > 0 && v.blocks.groupFree[g] > 0 && n < |v.data|
    && w == v.(blocks := v.blocks.Taken(g, i), data := v.data[n := ZeroBlock()])
  }

  ghost predicate Gives(v: Vol, w: Vol, g: nat, i: nat) {
    v.blocks.Has(g, i) && g < |v.blocks.groupFree| && w == v.(blocks := v.blocks.Given(g, i))
  }

  /** What the counts of a volume are read from. */
  lemma DecodedCounts(p: Plan, raw: Raw, g: nat, hints: (nat, nat), owner: map<nat, Slot>)
    requires Ready(p, raw) && g < p.groups
    ensures var v := Decode(p, raw, hints, owner);
      && v.geo == p.geo && v.groups == GroupsAt(raw.table, p.groups) && |v.groups| == |v.blocks.groupFree| == p.groups
      && v.blocks.free == Get32(raw.super, 12) < U32 && v.blocks.groupFree[g] == Get16(raw.table, 32 * g + 12) < 0x1_0000
      && v.groups[g] == GroupAt(raw.table, g)
    ensures forall hint :: Decode(p, raw, (hint, hints.1), owner).blocks == Decode(p, raw, hints, owner).blocks.(hint := hint)
                        && Decode(p, raw, (hint, hints.1), owner) == Decode(p, raw, hints, owner).(blocks := Decode(p, raw, hints, owner).blocks.(hint := hint))
  {
    hide Laid, BlockAt, NodesAt, DataAt, BitsAt, GroupSize;
  }

  lemma ReadyStored(p: Plan, raw: Raw, b: nat, c: seq<Byte>)
    requires Ready(p, raw)
    ensures Ready(p, Stored(raw, b, c)) && Stored(raw, b, c).super == raw.super && Stored(raw, b, c).table == raw.table
  {
  }

  /** Those stores are the steps the volume's modules take. */
  lemma BlockTakenDecodes(p: Plan, raw: Raw, g: nat, i: nat, hints: (nat, nat), owner: map<nat, Slot>)
    requires Ready(p, raw) && g < p.groups && i < GroupSize(p.geo, g)
    requires DataBlock(p.geo, GroupsAt(raw.table, p.groups), BlockNo(p.geo, g, i))
    requires Get32(raw.super, 12) > 0 && Get16(raw.table, 32 * g + 12) > 0
    ensures Takes(Decode(p, raw, hints, owner), Decode(p, BlockTaken(p, raw, g, i), (g, hints.1), owner), g, i, BlockNo(p.geo, g, i))
  {
    hide Laid, BlockAt, DataBlock, SetBit, GroupSize, Get16, Get32, BlockNo, Ready, Decode, GroupAt, GroupsAt;
    DecodedCounts(p, raw, g, hints, owner);
    var b := GroupAt(raw.table, g).blockMap;
    var c := SetBit(BlockAt(raw, b), i, true);
    var marked := Stored(raw, b, c);
    ReadyStored(p, raw, b, c);
    BlockBitStored(p, raw, g, i, true, (g, hints.1), owner);
    DecodedCounts(p, marked, g, (g, hints.1), owner);
    CountsStored(p, marked, false, g, Get32(raw.super, 12) - 1, Get16(raw.table, 32 * g + 12) - 1, (g, hints.1), owner);
    var counted := Counted(marked, false, g, Get32(raw.super, 12) - 1, Get16(raw.table, 32 * g + 12) - 1);
    DecodedCounts(p, counted, g, (g, hints.1), owner);
    DataStored(p, counted, BlockNo(p.geo, g, i), ZeroBlock(), (g, hints.1), owner);
  }

  lemma BlockGivenDecodes(p: Plan, raw: Raw, g: nat, i: nat, hints: (nat, nat), owner: map<nat, Slot>)
    requires Ready(p, raw) && g < p.groups && i < GroupSize(p.geo, g)
    requires Get32(raw.super, 12) + 1 < U32 && Get16(raw.table, 32 * g + 12) + 1 < 0x1_0000
    ensures Gives(Decode(p, raw, hints, owner), Decode(p, BlockGiven(p, raw, g, i), hints, owner), g, i)
  {
    hide Laid, BlockAt, DataBlock, SetBit, GroupSize, Get16, Get32, Ready, Decode, GroupAt, GroupsAt;
    DecodedCounts(p, raw, g, hints, owner);
    var b := GroupAt(raw.table, g).blockMap;
    var c := SetBit(BlockAt(raw, b), i, false);
    var marked := Stored(raw, b, c);
    ReadyStored(p, raw, b, c);
    BlockBitStored(p, raw, g, i, false, hints, owner);
    DecodedCounts(p, marked, g, hints, owner);
    CountsStored(p, marked, false, g, Get32(raw.super, 12) + 1, Get16(raw.table, 32 * g + 12) + 1, hints, owner);
  }

  /** allocate(1) of the inode with bit `i` in group `g`: the bit and the counts... */
  function InodeMarked(p: Plan, raw: Raw, g: nat, i: nat): Raw {
    Counted(Stored(raw, GroupAt(raw.table, g).inodeMap, SetBit(BlockAt(raw, GroupAt(raw.table, g).inodeMap), i, true)),
            true, g, Less(Get32(raw.super, 16)), Less(Get16(raw.table, 32 * g + 14)))
  }

  /** ... and the inode cleared. */
  function InodeTaken(p: Plan, raw: Raw, g: nat, i: nat): Raw
    requires p.Ok()
  {
    var marked, n := InodeMarked(p, raw, g, i), InodeNo(p.geo, g, i);
    Stored(marked, NodeBlock(p, GroupsAt(marked.table, p.groups), n), Cleared(p, marked, NodeBlock(p, GroupsAt(marked.table, p.groups), n), n))
  }

  /** memset(inode(n), 0, inode_size), in its block. */
  function Cleared(p: Plan, raw: Raw, b: nat, n: nat): (c: seq<Byte>)
    requires p.Ok() && n > 0
    ensures |c| == BLOCK
  {
    if NodeOffset(p, n) + p.inodeSize <= BLOCK then Splice(BlockAt(raw, b), NodeOffset(p, n), Zeros(p.inodeSize)) else BlockAt(raw, b)
  }

  /** What allocate(1) does to the volume. */
  ghost predicate TakesInode(v: Vol, w: Vol, g: nat, i: nat, n: nat) {
    && v.inodes.Has(g, i) && g < |v.inodes.groupFree| && v.inodes.free > 0 && v.inodes.groupFree[g] > 0 && 1 <= n <= |v.nodes|
    && w == v.(inodes := v.inodes.Taken(g, i), nodes := v.nodes[n - 1 := BlankNode(0, 0, 0)])
  }

  lemma DecodedInodeCounts(p: Plan, raw: Raw, g: nat, hints: (nat, nat), owner: map<nat, Slot>)
    requires Ready(p, raw) && g < p.groups
    ensures var v := Decode(p, raw, hints, owner);
      && v.geo == p.geo && v.groups == GroupsAt(raw.table, p.groups) && |v.groups| == |v.inodes.groupFree| == p.groups
      && v.inodes.free == Get32(raw.super, 16) < U32 && v.inodes.groupFree[g] == Get16(raw.table, 32 * g + 14) < 0x1_0000
      && v.groups[g] == GroupAt(raw.table, g)
    ensures forall hint :: Decode(p, raw, (hints.0, hint), owner).inodes == Decode(p, raw, hints, owner).inodes.(hint := hint)
                        && Decode(p, raw, (hints.0, hint), owner) == Decode(p, raw, hints, owner).(inodes := Decode(p, raw, hints, owner).inodes.(hint := hint))
  {
    hide Laid, BlockAt, NodesAt, DataAt, BitsAt, GroupSize;
  }

  ghost predicate MarksInode(v: Vol, w: Vol, g: nat, i: nat) {
    && v.inodes.Has(g, i) && g < |v.inodes.groupFree| && v.inodes.free > 0 && v.inodes.groupFree[g] > 0
    && w == v.(inodes := v.inodes.Taken(g, i))
  }

  lemma InodeMarkedDecodes(p: Plan, raw: Raw, g: nat, i: nat, hints: (nat, nat), owner: map<nat, Slot>)
    requires Ready(p, raw) && g < p.groups && i < p.geo.inodesPerGroup
    requires Get32(raw.super, 16) > 0 && Get16(raw.table, 32 * g + 14) > 0
    ensures Ready(p, InodeMarked(p, raw, g, i))
    ensures MarksInode(Decode(p, raw, hints, owner), Decode(p, InodeMarked(p, raw, g, i), (hints.0, g), owner), g, i)
  {
    hide Laid, BlockAt, DataBlock, SetBit, GroupSize, Get16, Get32, Ready, Decode, GroupAt, GroupsAt;
    DecodedInodeCounts(p, raw, g, hints, owner);
    var b := GroupAt(raw.table, g).inodeMap;
    var c := SetBit(BlockAt(raw, b), i, true);
    var marked := Stored(raw, b, c);
    ReadyStored(p, raw, b, c);
    InodeBitStored(p, raw, g, i, true, (hints.0, g), owner);
    DecodedInodeCounts(p, marked, g, (hints.0, g), owner);
    CountsStored(p, marked, true, g, Get32(raw.super, 16) - 1, Get16(raw.table, 32 * g + 14) - 1, (hints.0, g), owner);
  }

  lemma InodeTakenDecodes(p: Plan, raw: Raw, g: nat, i: nat, hints: (nat, nat), owner: map<nat, Slot>)
    requires Ready(p, raw) && g < p.groups && i < p.geo.inodesPerGroup
    requires Get32(raw.super, 16) > 0 && Get16(raw.table, 32 * g + 14) > 0
    ensures TakesInode(Decode(p, raw, hints, owner), Decode(p, InodeTaken(p, raw, g, i), (hints.0, g), owner), g, i, InodeNo(p.geo, g, i))
  {
    hide Laid, BlockAt, DataBlock, Get16, Get32, Decode, GroupAt, GroupsAt, InodeNo, NodeBlock, NodeOffset, NodeAt, Cleared, InodeMarked;
    var n, marked := InodeNo(p.geo, g, i), InodeMarked(p, raw, g, i);
    NumberInRange(p, g, i);
    InodeMarkedDecodes(p, raw, g, i, hints, owner);
    DecodedInodeCounts(p, marked, g, (hints.0, g), owner);
    var x := NodeBlock(p, GroupsAt(marked.table, p.groups), n);
    ClearedNode(p, marked, x, n);
    NodeStored(p, marked, n, Cleared(p, marked, x, n), (hints.0, g), owner);
  }

  /** release(n, 1), after the inode was cleared. */
  function InodeGiven(p: Plan, raw: Raw, g: nat, i: nat): Raw {
    Counted(Stored(raw, GroupAt(raw.table, g).inodeMap, SetBit(BlockAt(raw, GroupAt(raw.table, g).inodeMap), i, false)),
            true, g, More(Get32(raw.super, 16)), More(Get16(raw.table, 32 * g + 14)))
  }

  ghost predicate GivesInode(v: Vol, w: Vol, g: nat, i: nat) {
    v.inodes.Has(g, i) && g < |v.inodes.groupFree| && w == v.(inodes := v.inodes.Given(g, i))
  }

  lemma InodeGivenDecodes(p: Plan, raw: Raw, g: nat, i: nat, hints: (nat, nat), owner: map<nat, Slot>)
    requires Ready(p, raw) && g < p.groups && i < p.geo.inodesPerGroup
    requires Get32(raw.super, 16) + 1 < U32 && Get16(raw.table, 32 * g + 14) + 1 < 0x1_0000
    ensures GivesInode(Decode(p, raw, hints, owner), Decode(p, InodeGiven(p, raw, g, i), hints, owner), g, i)
  {
    hide Laid, BlockAt, DataBlock, SetBit, GroupSize, Get16, Get32, Ready, Decode, GroupAt, GroupsAt;
    DecodedInodeCounts(p, raw, g, hints, owner);
    var b := GroupAt(raw.table, g).inodeMap;
    var c := SetBit(BlockAt(raw, b), i, false);
    var marked := Stored(raw, b, c);
    ReadyStored(p, raw, b, c);
    InodeBitStored(p, raw, g, i, false, hints, owner);
    DecodedInodeCounts(p, marked, g, hints, owner);
    CountsStored(p, marked, true, g, Get32(raw.super, 16) + 1, Get16(raw.table, 32 * g + 14) + 1, hints, owner);
  }

  lemma NumberInRange(p: Plan, g: nat, i: nat)
    requires p.Ok() && g < p.groups && i < p.geo.inodesPerGroup
    ensures 1 <= InodeNo(p.geo, g, i) <= p.groups * p.geo.inodesPerGroup
  {
    ProductNonNegative(p.groups - 1 - g, p.geo.inodesPerGroup);
    assert (p.groups - 1 - g) * p.geo.inodesPerGroup == p.groups * p.geo.inodesPerGroup - p.geo.inodesPerGroup - g * p.geo.inodesPerGroup;
  }

  lemma ClearedNode(p: Plan, raw: Raw, b: nat, n: nat)
    requires p.Ok() && 1 <= n <= p.groups * p.geo.inodesPerGroup
    ensures NodeAt(Cleared(p, raw, b, n), NodeOffset(p, n)) == BlankNode(0, 0, 0)
    ensures Only(BlockAt(raw, b), Cleared(p, raw, b, n), NodeOffset(p, n), p.inodeSize)
  {
    IndexRoom((n - 1) % p.geo.inodesPerGroup, p.geo.inodesPerGroup, p.inodeSize, p.geo.tableBlocks);
    hide NodeAt;
    NodeCleared(BlockAt(raw, b), NodeOffset(p, n), p.inodeSize);
  }
}
