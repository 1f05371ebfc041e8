/** fs.c: what is on the disk after a crash, read as a volume. */
module Ext2Remount {
  import opened Bytes
  import opened Ext2Layout
  import opened Ext2Mount
  import opened Ext2Image
  import opened Ext2Commit
  import opened Ext2Durable
  import opened Ext2Cache

  function Pair(disk: Disk, b: nat): seq<Byte> {
    if 2 * b + 1 < |disk| then disk[2 * b] + disk[2 * b + 1] else []
  }

  function TableByte(disk: Disk, i: nat): Byte {
    var lba := DESCRIPTORS_LBA + i / SECTOR;
    if lba < |disk| && |disk[lba]| == SECTOR then disk[lba][i % SECTOR] else 0
  }

  /** A disk as superblock, descriptor table and blocks. */
  function RawOf(p: Plan, disk: Disk): Raw {
    Raw(Pair(disk, 1), seq(2 * p.geo.descriptorBlocks * SECTOR, i requires 0 <= i => TableByte(disk, i)),
        seq(p.geo.blocks, b requires 0 <= b => Pair(disk, b)))
  }

  /** Block `b` as the engine sees it through its cache. */
  ghost function Seen(disk: Disk, cache: seq<Entry>, b: nat): seq<Byte> {
    var i := CachedAt(cache, 2 * b);
    if i >= 0 then cache[i].data else Pair(disk, b)
  }

  /** What the engine sees in the middle of an operation. */
  ghost function Shown(p: Plan, disk: Disk, cache: seq<Entry>, super: seq<Byte>, table: seq<Byte>): Raw {
    Raw(super, table, seq(p.geo.blocks, b requires 0 <= b => Seen(disk, cache, b)))
  }

  /** The bytes stand for a consistent volume. */
  ghost predicate Sane(p: Plan, raw: Raw) {
    Ready(p, raw) && exists hints, owner :: SaneWith(p, raw, hints, owner)
  }

  ghost predicate SaneWith(p: Plan, raw: Raw, hints: (nat, nat), owner: map<nat, Slot>)
    requires p.Ok()
  {
    Decode(p, raw, hints, owner).Ok({})
  }

  /** Two images that agree wherever the engine looks. */
  ghost predicate Alike(p: Plan, a: Raw, b: Raw) {
    && Get32(b.super, 12) == Get32(a.super, 12) && Get32(b.super, 16) == Get32(a.super, 16)
    && 32 * p.groups <= |a.table| && 32 * p.groups <= |b.table| && b.table[..32 * p.groups] == a.table[..32 * p.groups]
    && forall x: nat :: Addressed(p.geo, GroupsAt(a.table, p.groups), x) ==> SameAt(a, b, x)
  }

  lemma AlikeTables(p: Plan, a: seq<Byte>, b: seq<Byte>, g: nat)
    requires g < p.groups && 32 * p.groups <= |a| && 32 * p.groups <= |b| && b[..32 * p.groups] == a[..32 * p.groups]
    ensures GroupAt(b, g) == GroupAt(a, g)
    ensures Get16(b, 32 * g + 12) == Get16(a, 32 * g + 12) && Get16(b, 32 * g + 14) == Get16(a, 32 * g + 14)
  {
    var x, y := a[..32 * p.groups], b[..32 * p.groups];
    assert forall i :: 0 <= i < 32 * p.groups ==> a[i] == x[i] && b[i] == y[i];
  }

  lemma AlikeDecode(p: Plan, a: Raw, b: Raw, hints: (nat, nat), owner: map<nat, Slot>)
    requires p.Ok() && Laid(p.geo, GroupsAt(a.table, p.groups)) && Alike(p, a, b)
    ensures Decode(p, b, hints, owner) == Decode(p, a, hints, owner)
  {
    hide Laid, Addressed, BlockAt, DataBlock, GroupSize, BitsAt, NodeAt, NodeBlock, NodeOffset, NodeGroup, Get16, Get32, InTable, GroupAt;
    var groups := GroupsAt(a.table, p.groups);
    forall g | 0 <= g < p.groups
      ensures GroupAt(b.table, g) == GroupAt(a.table, g)
      ensures Get16(b.table, 32 * g + 12) == Get16(a.table, 32 * g + 12) && Get16(b.table, 32 * g + 14) == Get16(a.table, 32 * g + 14)
      ensures SameAt(a, b, groups[g].blockMap) && SameAt(a, b, groups[g].inodeMap)
    {
      AlikeTables(p, a.table, b.table, g);
      OwnAddressed(p.geo, groups, g, groups[g].blockMap);
      OwnAddressed(p.geo, groups, g, groups[g].inodeMap);
    }
    assert GroupsAt(b.table, p.groups) == groups;
    assert BlockPool(p, b, groups, hints.0) == BlockPool(p, a, groups, hints.0);
    assert InodePool(p, b, groups, hints.1) == InodePool(p, a, groups, hints.1);
    forall n | 1 <= n <= p.groups * p.geo.inodesPerGroup ensures SameAt(a, b, NodeBlock(p, groups, n)) {
      NodePlace(p, groups, n);
      OwnAddressed(p.geo, groups, NodeGroup(p, n), NodeBlock(p, groups, n));
    }
    NodesKept(p, a, b, groups);
    forall x: nat | DataBlock(p.geo, groups, x) ensures SameAt(a, b, x) {
      DataAddressed(p.geo, groups, x);
    }
    DataKept(p, a, b, groups);
  }

  lemma OwnAddressed(geo: Geometry, groups: seq<Group>, g: nat, b: nat)
    requires g < |groups| && (b == groups[g].blockMap || b == groups[g].inodeMap || InTable(geo, groups[g], b))
    ensures Addressed(geo, groups, b)
  {
    assert OwnBlock(geo, groups[g], b);
  }

  lemma DataAddressed(geo: Geometry, groups: seq<Group>, b: nat)
    requires geo.perGroup > 0 && DataBlock(geo, groups, b)
    ensures Addressed(geo, groups, b)
  {
  }

  // ------------------------------------------------------------ what a commit leaves

  /** The descriptor sectors a commit writes. */
  function TableSectors(p: Plan): nat {
    2 * p.geo.descriptorBlocks
  }

  /** A cache over a disk that holds the volume of `p`. */
  ghost predicate Caching(p: Plan, disk: Disk, cache: seq<Entry>, super: seq<Byte>, table: seq<Byte>) {
    && DiskOk(disk) && 2 * p.geo.blocks <= |disk| && |super| == BLOCK && TableSectors(p) * SECTOR <= |table|
    && forall i :: 0 <= i < |cache| ==> |cache[i].data| == BLOCK
  }

  /** The disk after a commit reads as what the engine saw before it. */
  lemma CommitAlike(p: Plan, disk: Disk, cache: seq<Entry>, super: seq<Byte>, table: seq<Byte>, after: Disk)
    requires Caching(p, disk, cache, super, table) && Ready(p, Shown(p, disk, cache, super, table))
    requires IsNew(after, disk, cache, super, table, TableSectors(p))
    ensures Alike(p, Shown(p, disk, cache, super, table), RawOf(p, after))
  {
    var a, b := Shown(p, disk, cache, super, table), RawOf(p, after);
    RoomOf(p, a);
    SuperAlike(p, disk, cache, super, table, after);
    hide Laid, Addressed, BlockAt, Get16, Get32, Seen, Pair, IsNew, TableByte, GroupsAt;
    forall i | 0 <= i < 32 * p.groups ensures b.table[i] == a.table[i] {
      TableAlike(p, disk, cache, super, table, after, i);
    }
    assert b.table[..32 * p.groups] == a.table[..32 * p.groups];
    forall x: nat | Addressed(p.geo, GroupsAt(a.table, p.groups), x) ensures SameAt(a, b, x) {
      AddressedApart(p.geo, GroupsAt(a.table, p.groups), x);
      BlockAlike(p, disk, cache, super, table, after, x);
      SeqAt(p, a, b, x);
    }
  }

  lemma RoomOf(p: Plan, raw: Raw)
    requires Ready(p, raw)
    ensures 32 * p.groups <= TableSectors(p) * SECTOR && |GroupsAt(raw.table, p.groups)| == p.groups
    ensures DESCRIPTORS_LBA + TableSectors(p) <= 2 * p.geo.blocks
  {
    var groups := GroupsAt(raw.table, p.groups);
    assert GroupFits(p.geo, groups[0], 0);
  }

  lemma SuperAlike(p: Plan, disk: Disk, cache: seq<Entry>, super: seq<Byte>, table: seq<Byte>, after: Disk)
    requires Caching(p, disk, cache, super, table) && IsNew(after, disk, cache, super, table, TableSectors(p))
    ensures var now := RawOf(p, after).super; Get32(now, 12) == Get32(super, 12) && Get32(now, 16) == Get32(super, 16)
  {
    assert after[SUPER_LBA] == Half(Marked(super, CLEAN), 0) && after[SUPER_LBA + 1] == Half(super, 1);
    var now := Pair(after, 1);
    forall i | 0 <= i < 20 ensures now[i] == super[i] {
    }
    Apart32(super, now, 12);
    Apart32(super, now, 16);
  }

  lemma TableAlike(p: Plan, disk: Disk, cache: seq<Entry>, super: seq<Byte>, table: seq<Byte>, after: Disk, i: nat)
    requires Caching(p, disk, cache, super, table) && IsNew(after, disk, cache, super, table, TableSectors(p))
    requires i < TableSectors(p) * SECTOR && DESCRIPTORS_LBA + TableSectors(p) <= |disk|
    ensures TableByte(after, i) == table[i]
  {
    var s := i / SECTOR;
    assert after[DESCRIPTORS_LBA + s] == TableSector(table, s);
    assert TableSector(table, s)[i % SECTOR] == table[s * SECTOR + i % SECTOR];
  }

  lemma {:induction false} CachedPair(cache: seq<Entry>, b: nat)
    ensures CachedAt(cache, 2 * b + 1) == CachedAt(cache, 2 * b)
  {
    if cache != [] {
      CachedPair(cache[..|cache| - 1], b);
    }
  }

  lemma BlockAlike(p: Plan, disk: Disk, cache: seq<Entry>, super: seq<Byte>, table: seq<Byte>, after: Disk, b: nat)
    requires Caching(p, disk, cache, super, table) && IsNew(after, disk, cache, super, table, TableSectors(p))
    requires Reserved(p.geo) <= b < p.geo.blocks
    ensures Pair(after, b) == Seen(disk, cache, b)
  {
    CachedPair(cache, b);
    var lba := 2 * b;
    assert after[lba] == NewSector(disk, cache, super, table, TableSectors(p), lba);
    assert after[lba + 1] == NewSector(disk, cache, super, table, TableSectors(p), lba + 1);
    var i := CachedAt(cache, lba);
    if i >= 0 {
      assert Half(cache[i].data, 0) + Half(cache[i].data, 1) == cache[i].data;
    }
  }

  lemma SeqAt(p: Plan, a: Raw, b: Raw, x: nat)
    requires x < |a.blocks| && x < |b.blocks| && a.blocks[x] == b.blocks[x]
    ensures SameAt(a, b, x)
  {
  }

  /** A commit of what stands for a consistent volume leaves a disk that does. */
  lemma CommitSane(p: Plan, disk: Disk, cache: seq<Entry>, super: seq<Byte>, table: seq<Byte>, after: Disk)
    requires Caching(p, disk, cache, super, table) && Sane(p, Shown(p, disk, cache, super, table))
    requires IsNew(after, disk, cache, super, table, TableSectors(p))
    ensures Sane(p, RawOf(p, after))
  {
    hide IsNew, Alike, Decode, Laid, Caching, Vol.Ok, GroupsAt;
    var a := Shown(p, disk, cache, super, table);
    CommitAlike(p, disk, cache, super, table, after);
    AlikeReady(p, a, RawOf(p, after));
    SuperSize(p, disk, cache, super, table, after);
    var hints, owner :| SaneWith(p, a, hints, owner);
    AlikeDecode(p, a, RawOf(p, after), hints, owner);
    assert SaneWith(p, RawOf(p, after), hints, owner);
  }

  lemma AlikeReady(p: Plan, a: Raw, b: Raw)
    requires Ready(p, a) && Alike(p, a, b)
    ensures GroupsAt(b.table, p.groups) == GroupsAt(a.table, p.groups) && 32 * p.groups <= |b.table|
  {
    hide Laid, Addressed, BlockAt, Get16, Get32;
    forall g | 0 <= g < p.groups ensures GroupAt(b.table, g) == GroupAt(a.table, g) {
      AlikeTables(p, a.table, b.table, g);
    }
  }

  lemma SuperSize(p: Plan, disk: Disk, cache: seq<Entry>, super: seq<Byte>, table: seq<Byte>, after: Disk)
    requires Caching(p, disk, cache, super, table) && IsNew(after, disk, cache, super, table, TableSectors(p))
    ensures |RawOf(p, after).super| == BLOCK
  {
    assert after[SUPER_LBA] == Half(Marked(super, CLEAN), 0) && after[SUPER_LBA + 1] == Half(super, 1);
  }

  // ------------------------------------------------------------ a whole mount

  /** Every committed volume, and the one on its way, stands for a consistent one. */
  ghost predicate AllSane(p: Plan, history: seq<Committed>, attempt: Disk) {
    (forall j :: 0 <= j < |history| ==> Sane(p, RawOf(p, history[j].volume))) && Sane(p, RawOf(p, attempt))
  }

  /** finish() keeps that when what the engine saw did, whether the commit goes through or not. */
  lemma FinishSane(p: Plan, disk: Disk, cache: seq<Entry>, super: seq<Byte>, table: seq<Byte>,
                   history: seq<Committed>, attempt: Disk, next: Disk, at: nat)
    requires AllSane(p, history, attempt) && Caching(p, disk, cache, super, table) && Sane(p, Shown(p, disk, cache, super, table))
    requires IsNew(next, disk, cache, super, table, TableSectors(p))
    ensures AllSane(p, history, next) && AllSane(p, history + [Committed(at, next)], next)
  {
    hide IsNew, Sane, Caching;
    CommitSane(p, disk, cache, super, table, next);
  }

  /** Crash consistency of the file system: over any sequence of operations, cut anywhere, with
      any unflushed writes lost, a disk that mounts stands for a consistent volume. */
  lemma CrashConsistent(p: Plan, cache: BlockCache, j: nat, k: nat, lost: set<nat>)
    requires cache.Safe() && Between(cache.device.log, cache.history, j, k) && AllSane(p, cache.history, cache.attempt)
    ensures var after := Crash(cache.device.initial, cache.device.log[..k], lost);
      IsDirty(after) || Sane(p, RawOf(p, after))
  {
    hide Crash, Sane, IsDirty, RawOf, Durable;
    cache.CrashSafe(j, k, lost);
  }
}
