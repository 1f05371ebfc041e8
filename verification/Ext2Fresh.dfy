/** A small formatted volume: every invariant of the engine's modules holds of it, so they hold
    of every volume the engine makes of it. */
module Ext2Fresh {
  import opened Bytes
  import opened Ext2Pools
  import opened Ext2Layout
  import opened Ext2Steps
  import opened Ext2Directory
  import opened Ext2Names
  import opened Ext2Tree
  import opened Ext2Dirs
  import opened Ext2Tidy
  import Ext2Mount

  const ROOT := 2
  const ROOT_BLOCK := 7

  /** Sixteen blocks: boot, superblock, descriptors, two bitmaps, two blocks of inodes, the
      root directory, and eight free ones. */
  const GEO := Geometry(16, 8192, 16, 11, true, 1, 2)
  const GROUP := Group(3, 4, 5, 1)

  /** The first `used` of `n` are taken. */
  function Taken(n: nat, used: nat): (bits: seq<bool>)
    ensures |bits| == n && forall i :: 0 <= i < n ==> bits[i] == (i < used)
  {
    seq(n, i requires 0 <= i < n => i < used)
  }

  lemma {:induction false} TakenClear(n: nat, used: nat)
    requires used <= n
    ensures Clear(Taken(n, used)) == n - used
  {
    if n > used {
      TakenClear(n - 1, used);
      assert Taken(n, used)[..n - 1] == Taken(n - 1, used);
    } else if n > 0 {
      TakenClear(n - 1, n - 1);
      assert Taken(n, used)[..n - 1] == Taken(n - 1, n - 1);
    }
  }

  function Root(): Inode {
    Inode(0x41ED, 2, BLOCK, 2, [ROOT_BLOCK, 0, 0, 0, 0, 0, 0, 0, 0, 0, 0, 0, 0], 0)
  }

  function Nodes(): (r: seq<Inode>)
    ensures |r| == 16 && forall i :: 0 <= i < 16 ==> r[i] == if i == ROOT - 1 then Root() else BlankNode(0, 0, 0)
  {
    seq(16, i requires 0 <= i < 16 => if i == ROOT - 1 then Root() else BlankNode(0, 0, 0))
  }

  function Data(): (r: seq<seq<Byte>>)
    ensures |r| == 16 && forall i :: 0 <= i < 16 ==> r[i] == if i == ROOT_BLOCK then NewDirBlock(Format(true, 16), ROOT, ROOT) else ZeroBlock()
  {
    seq(16, i requires 0 <= i < 16 => if i == ROOT_BLOCK then NewDirBlock(Format(true, 16), ROOT, ROOT) else ZeroBlock())
  }

  ghost function Volume(): Vol {
    Vol(GEO, [GROUP], Pool(8, [8], [Taken(15, 7)], 0), Pool(6, [6], [Taken(16, 10)], 0), Nodes(), Data(),
        map[ROOT_BLOCK := Slot(ROOT, 0)])
  }

  lemma OneSum(n: nat)
    ensures Sum([n]) == n
  {
    assert [n][..0] == [];
  }

  lemma FreshShape()
    ensures Volume().Shape()
  {
    hide NewDirBlock;
  }

  /** Only blocks from the root directory's on may hold data. */
  lemma FreshData(b: nat)
    ensures Volume().Shape()
    ensures DataBlock(GEO, [GROUP], b) <==> ROOT_BLOCK <= b < 16
    ensures 0 < b < 16 ==> (BlockUsed(GEO, Volume().blocks, b) <==> b <= ROOT_BLOCK)
  {
    FreshShape();
    hide Vol.Shape, TablesOk;
    if 0 < b < 16 {
      assert (b - 1) / 8192 == 0 && (b - 1) % 8192 == b - 1;
      assert BackupGroup(GEO, 0);
    }
  }

  lemma FreshPools()
    ensures Volume().Shape() && Volume().PoolsOk()
  {
    FreshShape();
    hide Vol.Shape, TablesOk, DataBlock;
    TakenClear(15, 7);
    TakenClear(16, 10);
    OneSum(8);
    OneSum(6);
    var v := Volume();
    forall g: nat, i: nat | v.blocks.Has(g, i) && !v.blocks.bits[g][i]
      ensures DataBlock(v.geo, v.groups, BlockNo(v.geo, g, i))
    {
      FreshData(BlockNo(v.geo, g, i));
    }
  }

  lemma FreshPtr(s: Slot)
    requires 1 <= s.ino <= 16 && s.k < SLOTS
    ensures TablesOk(Nodes(), Data())
    ensures Ptr(Nodes(), Data(), s) == if s == Slot(ROOT, 0) then ROOT_BLOCK else 0
  {
    FreshShape();
    hide NewDirBlock, Load32;
  }

  lemma FreshOwned()
    ensures Volume().Shape() && Volume().Owned({})
  {
    FreshShape();
    var v := Volume();
    hide TablesOk, DataBlock, BlockUsed, Ptr;
    FreshLive();
    FreshPtr(Slot(ROOT, 0));
    FreshData(ROOT_BLOCK);
    forall s: Slot | v.Live(s.ino) && s.k < SLOTS && Ptr(v.nodes, v.data, s) != 0
      ensures Ptr(v.nodes, v.data, s) in v.owner && v.owner[Ptr(v.nodes, v.data, s)] == s
    {
      FreshPtr(s);
    }
    forall b: nat | DataBlock(v.geo, v.groups, b) ensures b > 0 && (BlockUsed(v.geo, v.blocks, b) <==> b in v.owner) {
      FreshData(b);
    }
  }

  lemma FreshLive()
    ensures Volume().Shape() && Volume().Live(ROOT)
  {
    FreshShape();
    assert (ROOT - 1) / 16 == 0 && (ROOT - 1) % 16 == 1;
  }

  lemma FreshCounted()
    ensures Volume().Shape() && Volume().Counted()
  {
    FreshShape();
    var v := Volume();
    hide TablesOk, InodeUsed;
    forall n: nat | v.Live(n) ensures v.nodes[n - 1].sectors == 2 * |OwnedBy(v.owner, n)| {
      if n == ROOT {
        assert OwnedBy(v.owner, n) == {ROOT_BLOCK};
      } else {
        assert OwnedBy(v.owner, n) == {};
      }
    }
  }

  /** Its root holds "." and "..", and there is room to allocate. */
  lemma Formatted()
    ensures Volume().Ok({}) && Volume().blocks.free > 0 && Volume().inodes.free > 0
    ensures DirAt(Volume(), true, ROOT) && DirMap(Volume(), true, ROOT) == NewNames(true, ROOT, ROOT)
  {
    FreshShape();
    FreshPools();
    FreshOwned();
    FreshCounted();
    FreshRoot();
  }

  /** And its names are as tidy as the engine keeps them. */
  lemma FreshTidy()
    ensures Tidy(Volume(), true, ROOT)
  {
    FreshRoot();
    FreshLive();
    hide TablesOk, InodeUsed, DirAt, DirMap, GroupSize, Vol.Shape, DirBlocks, NewDirBlock, Data, Taken, TidyNames;
    assert Volume().nodes[ROOT - 1] == Root();
    TidyRoot(Volume(), true, ROOT);
  }

  lemma FreshRoot()
    ensures Volume().Shape() && DirAt(Volume(), true, ROOT)
    ensures DirBlocks(Volume(), ROOT) == [NewDirBlock(Format(true, 16), ROOT, ROOT)]
    ensures DirMap(Volume(), true, ROOT) == NewNames(true, ROOT, ROOT)
  {
    FreshShape();
    FreshLive();
    var v := Volume();
    hide TablesOk, InodeUsed, Ptr, DirOk, Dir, NewDirBlock, Mapped, GroupSize, Vol.Shape;
    NewDirLists(Format(true, 16), ROOT, ROOT);
    FreshPtr(Slot(ROOT, 0));
    assert SlotOf(ROOT, 0) == Slot(ROOT, 0);
    DirBlockIs(v, ROOT, 0);
    assert DirBlocks(v, ROOT) == [NewDirBlock(Format(true, 16), ROOT, ROOT)];
    FreshPtr(Slot(ROOT, INDIRECT_SLOT));
  }

  lemma Fits()
    ensures Ext2Mount.GroupFits(GEO, GROUP, 0) && Ext2Mount.MetadataEnd(GEO, 0) == 3 && GroupSize(GEO, 0) == 15
    ensures GroupStart(GEO, 0) == 1
  {
    assert BackupGroup(GEO, 0);
  }

  lemma Checked()
    ensures Ext2Mount.GroupChecked(GEO, GROUP, 0, 8, 6, Taken(15, 7))
  {
    hide GroupSize, BackupGroup, Ext2Mount.GroupFits, Ext2Mount.MetadataEnd, GroupStart;
    Fits();
  }

  /** And it is one that engine_init mounts. */
  lemma Mounts()
    ensures Ext2Mount.Laid(Volume().geo, Volume().groups)
    ensures Ext2Mount.Sized(Volume().geo, Volume().groups, Volume().blocks, Volume().inodes)
    ensures Ext2Mount.Mountable(Volume().geo, Volume().groups, Volume().blocks, Volume().inodes)
  {
    hide GroupSize, BackupGroup, Ext2Mount.GroupFits, Ext2Mount.MetadataEnd, GroupStart, Ext2Mount.GroupChecked, Sum;
    Fits();
    Checked();
    OneSum(8);
    OneSum(6);
  }
}
