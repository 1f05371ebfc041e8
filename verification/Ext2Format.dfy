/** fs.c: the numbers of the disk format, as the second extended file system lays them down, which the
    other modules name but do not spell out. */
module Ext2Format {
  import opened Arithmetic
  import opened Bytes
  import opened Ext2Layout
  import opened Ext2Contents
  import opened Ext2Directory
  import opened Ext2Names
  import opened Ext2Supported
  import opened Ext2Mount
  import Ext2Image
  import opened Ext2Commit
  import opened Ext2Durable
  import opened Ext2Cache
  import Ext2Remount

  // ------------------------------------------------------------ files

  /** Block `i` of a file: twelve are named in the inode, 256 more in the block that its thirteenth
      pointer names, if any. */
  lemma BlockOfFile(nodes: seq<Inode>, data: seq<seq<Byte>>, n: nat, i: nat)
    requires TablesOk(nodes, data) && 1 <= n <= |nodes| && i < 268
    ensures |nodes[n - 1].ptr| == 13 && nodes[n - 1].ptr[12] < |data|
    ensures FileBlock(nodes, data, n, i) ==
      if i < 12 then nodes[n - 1].ptr[i]
      else if nodes[n - 1].ptr[12] == 0 then 0
      else Load32(data[nodes[n - 1].ptr[12]], 4 * (i - 12))
  {
    hide Load32;
  }

  /** Byte `off` of a file: blocks are 1024 bytes, and a hole reads as zero. */
  lemma ByteOfFile(v: Vol, n: nat, off: nat)
    requires v.Shape() && 1 <= n <= |v.nodes| && off < 274432
    ensures var b := FileBlock(v.nodes, v.data, n, off / 1024);
      Raw(v, n, off) == if 0 < b < |v.data| then v.data[b][off % 1024] else 0
  {
    hide FileBlock, GroupSize;
  }

  /** Which inodes pass as files and as directories. */
  lemma KindsOfInode(node: Inode)
    ensures IsFile(node) <==> node.mode / 0x1000 % 16 == 8 && node.size <= 274432 && node.links != 0
    ensures IsDir(node) ==> node.mode / 0x1000 % 16 == 4 && 1024 <= node.size <= 12288 && node.size % 1024 == 0 && node.links != 0
    ensures IsDir(node) ==> |node.ptr| == 13 && node.ptr[12] == 0
  {
  }

  // ------------------------------------------------------------ groups

  lemma PowerDown(base: nat, e: nat)
    requires base >= 2 && e > 0
    ensures Power(base, e) > 1 && Power(base, e) % base == 0 && Power(base, e) / base == Power(base, e - 1)
  {
    PowerPositive(base, e - 1);
    ProductNonNegative(base - 2, Power(base, e - 1));
    DivModUnique(Power(base, e), base, Power(base, e - 1), 0);
  }

  /** power_of: exactly the powers. */
  lemma {:induction false} Powers(n: nat, base: nat)
    requires base >= 2
    ensures PowerOf(n, base) ==> exists e: nat :: n == Power(base, e)
    decreases n
  {
    hide Power;
    if n > 1 && n % base == 0 {
      DivModUnique(n, base, n / base, 0);
      if n / base >= n {
        ProductNonNegative(base - 2, n / base);
        assert false;
      }
      Powers(n / base, base);
      if PowerOf(n, base) {
        var e: nat :| n / base == Power(base, e);
        PowerDown(base, e + 1);
        assert n == Power(base, e + 1) by { PowerUp(base, e); }
      }
    } else {
      PowerUp(base, 0);
    }
  }

  lemma PowerUp(base: nat, e: nat)
    ensures Power(base, 0) == 1 && Power(base, e + 1) == base * Power(base, e)
  {
  }

  lemma {:induction false} PowersPass(base: nat, e: nat)
    requires base >= 2
    ensures PowerOf(Power(base, e), base)
  {
    hide Power;
    PowerUp(base, 0);
    if e > 0 {
      PowerDown(base, e);
      PowersPass(base, e - 1);
    }
  }

  /** Which groups hold a copy of the superblock and the descriptors: all of them, or with the
      sparse feature those numbered 0, 1 and the powers of 3, 5 and 7. */
  lemma Backups(geo: Geometry, g: nat)
    ensures BackupGroup(geo, g) <==>
      !geo.sparse || g == 0 || g == 1
      || exists e: nat :: g == Power(3, e) || g == Power(5, e) || g == Power(7, e)
  {
    Powers(g, 3);
    Powers(g, 5);
    Powers(g, 7);
    hide PowerOf, Power;
    if e: nat :| g == Power(3, e) || g == Power(5, e) || g == Power(7, e) {
      PowersPass(3, e);
      PowersPass(5, e);
      PowersPass(7, e);
    }
  }

  /** Where a group lies, and what of it is never a data block: the copies, the two bitmaps, and
      the inode table. Block 0 belongs to no group. */
  lemma BlocksOfGroup(geo: Geometry, groups: seq<Group>, b: nat, g: nat)
    requires geo.perGroup > 0 && 1 + g * geo.perGroup <= b < 1 + (g + 1) * geo.perGroup && g < |groups|
    ensures GroupSize(geo, g) == if geo.blocks - 1 - g * geo.perGroup < 0 then 0
                                 else if geo.blocks - 1 - g * geo.perGroup < geo.perGroup then geo.blocks - 1 - g * geo.perGroup else geo.perGroup
    ensures MetadataEnd(geo, g) == 1 + g * geo.perGroup + if BackupGroup(geo, g) then 1 + geo.descriptorBlocks else 0
    ensures DataBlock(geo, groups, b) <==>
      b < geo.blocks && b >= MetadataEnd(geo, g) && b != groups[g].blockMap && b != groups[g].inodeMap
      && !(groups[g].table <= b < groups[g].table + geo.tableBlocks)
  {
    hide BackupGroup;
    DivModUnique(b - 1, geo.perGroup, g, b - 1 - g * geo.perGroup);
    assert b - 1 == geo.perGroup * g + (b - 1 - g * geo.perGroup);
  }

  /** Bit `n` of a bitmap. */
  lemma BitOfMap(bytes: seq<Byte>, n: nat)
    requires n / 8 < |bytes|
    ensures Ext2Image.Bit(bytes, n) <==> BitAt(bytes[n / 8], n % 8) == 1
  {
    BitIs(bytes[n / 8], n % 8);
  }

  lemma {:induction false} BitIs(x: nat, k: nat)
    ensures Ext2Image.BitOf(x, k) <==> BitAt(x, k) == 1
  {
    if k > 0 {
      BitIs(x / 2, k - 1);
    }
  }

  // ------------------------------------------------------------ directory records

  /** A record that may be followed: a length in its fifth and sixth byte that is a multiple of four and
      holds its header and its name, and an inode there is. */
  lemma RecordFields(f: Format, b: Block, off: nat)
    requires off <= 1024
    ensures RecordOk(f, b, off, 1024) <==>
      && off + 8 <= 1024
      && var len := Load16(b, off + 4);
         && len % 4 == 0 && 8 + b[off + 6] <= len && off + len <= 1024
         && (f.filetype || b[off + 7] == 0) && Load32(b, off) <= f.inodes
  {
  }

  /** What the record of a name says. */
  lemma RecordOfName(f: Format, b: Block, off: nat, n: nat, name: seq<Byte>)
    requires Here(f, b, off, n, name)
    ensures off + 8 + |name| <= 1024 && Load32(b, off) == n > 0 && b[off + 6] == |name| && b[off + 8..off + 8 + |name|] == name
  {
  }

  // ------------------------------------------------------------ the superblock on the disk

  /** The state is bytes 58 and 59 of the superblock, in sector 2: 2 while a commit is under way. */
  lemma DirtyState(disk: Disk)
    ensures IsDirty(disk) <==> |disk| > 2 && |disk[2]| == 512 && disk[2][58] == 2 && disk[2][59] == 0
  {
  }

  /** How a commit starts and ends: the state is 2 before anything else is written, and becomes 1
      only when all of it has been flushed. */
  lemma CommitEnds(cache: seq<Entry>, super: seq<Byte>, savedSuper: seq<Byte>, table: seq<Byte>, savedTable: seq<Byte>, n: nat)
    requires forall i :: 0 <= i < |cache| ==> |cache[i].data| == BLOCK && |cache[i].before| == BLOCK
    requires |super| == |savedSuper| == BLOCK && n * SECTOR <= |table| == |savedTable|
    ensures var ops := FinishOps(cache, super, savedSuper, table, savedTable, n); var k := |ops|;
      && k >= 5 && ops[1] == Flush && ops[k - 3] == Flush && ops[k - 1] == Flush
      && Stamped(ops[0], super, 2) && Stamped(ops[k - 2], super, 1)
  {
    hide BodyOps;
    StampedSuper(super, 2);
    StampedSuper(super, 1);
  }

  /** A write of the first half of the superblock with this state. */
  predicate Stamped(op: Op, super: seq<Byte>, state: Byte) {
    && op.Write? && op.lba == 2 && |op.bytes| == 512 && |super| == 1024 && op.bytes[58] == state && op.bytes[59] == 0
    && op.bytes[..58] == super[..58] && op.bytes[60..] == super[60..512]
  }

  lemma StampedSuper(super: seq<Byte>, state: Byte)
    requires |super| == BLOCK
    ensures Stamped(Write(SUPER_LBA, Half(Ext2Commit.Marked(super, state), 0)), super, state)
  {
    var half := Half(Ext2Commit.Marked(super, state), 0);
    assert half == Ext2Commit.Marked(super, state)[..512];
    forall i | 0 <= i < 512 ensures half[i] == if i == 58 then state else if i == 59 then 0 else super[i] {
    }
  }

  /** Where the engine finds things: block `b` in sectors 2b and 2b + 1, the superblock in 2 and 3, the
      descriptors from sector 4 on. */
  lemma Sectors(p: Ext2Image.Plan, disk: Disk, b: nat, i: nat)
    requires b < p.geo.blocks && i < 1024 * p.geo.descriptorBlocks && |disk| > 3 && 2 * b + 1 < |disk|
    requires 4 + i / 512 < |disk| && |disk[4 + i / 512]| == 512
    ensures Ext2Remount.RawOf(p, disk).super == disk[2] + disk[3]
    ensures b < |Ext2Remount.RawOf(p, disk).blocks| && Ext2Remount.RawOf(p, disk).blocks[b] == disk[2 * b] + disk[2 * b + 1]
    ensures i < |Ext2Remount.RawOf(p, disk).table| && Ext2Remount.RawOf(p, disk).table[i] == disk[4 + i / 512][i % 512]
  {
  }

  /** Crash consistency once more, on the bytes of the disk: whatever a crash leaves, either its state is
      2, and it is not mounted, or it stands for a consistent volume. */
  lemma CrashLeaves(p: Ext2Image.Plan, cache: BlockCache, j: nat, k: nat, lost: set<nat>)
    requires cache.Safe() && Between(cache.device.log, cache.history, j, k) && Ext2Remount.AllSane(p, cache.history, cache.attempt)
    ensures var after := Crash(cache.device.initial, cache.device.log[..k], lost);
      (|after| > 2 && |after[2]| == 512 && after[2][58] == 2 && after[2][59] == 0) || Ext2Remount.Sane(p, Ext2Remount.RawOf(p, after))
  {
    Ext2Remount.CrashConsistent(p, cache, j, k, lost);
    DirtyState(Crash(cache.device.initial, cache.device.log[..k], lost));
  }
}
