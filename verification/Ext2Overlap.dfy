/** A volume that engine_init mounts and that the engine's own insert() spoils: the one block of
    its root directory is full, and a second block is mapped past the directory's size. */
module Ext2Overlap {
  import opened Bytes
  import opened Ext2Pools
  import opened Ext2Layout
  import opened Ext2Contents
  import opened Ext2Steps
  import opened Ext2Directory
  import opened Ext2Names
  import opened Ext2Dirs
  import opened Ext2Growth
  import opened Ext2Engine
  import opened Ext2Fresh

  const F: Format := Format(true, 16)
  const SPARE := 8

  /** A name of `n` bytes. */
  function Long(n: nat): (name: seq<Byte>)
    ensures |name| == n && forall i :: 0 <= i < n ==> name[i] == 97
  {
    seq(n, _ => 97)
  }

  /** The longest name the engine itself would give a file. */
  const NAME: seq<Byte> := Long(MAX_NAME)

  /** Six records, none with room for another name of that length. */
  function FullBlock(): Block {
    Record(F, ROOT, 12, DOT, 2) + Record(F, ROOT, 12, DOTDOT, 2)
    + Record(F, ROOT, 248, Long(237), 2) + Record(F, ROOT, 248, Long(238), 2)
    + Record(F, ROOT, 252, Long(239), 2) + Record(F, ROOT, 252, Long(240), 2)
  }

  /** The first `end` bytes of a block list names of different lengths below `bound`. */
  ghost predicate Front(b: Block, end: nat, bound: nat) {
    && end <= BLOCK && Tiled(F, b, 0, end) && Distinct(List(F, b, 0, end))
    && forall name :: name in Bindings(List(F, b, 0, end)) ==> |name| < bound && |name| != MAX_NAME
  }

  /** One more record, with a longer name. */
  lemma FrontMore(b: Block, end: nat, bound: nat, len: nat, name: seq<Byte>)
    requires Front(b, end, bound) && end + len <= BLOCK && Need(|name|) <= len && len % 4 == 0 && bound <= |name| < 256 && |name| != MAX_NAME
    requires b[end..end + len] == Record(F, ROOT, len, name, 2)
    ensures Front(b, end + len, |name| + 1)
  {
    hide Tiled, Record, List, Bindings, Distinct;
    RecordReads(F, b, end, ROOT, len, name, 2);
    TiledJoin(F, b, 0, end, end + len);
    BindOne(Dirent(ROOT, name, 2));
    BindJoin(List(F, b, 0, end), [Dirent(ROOT, name, 2)]);
  }

  /** From `start` on, no record has room. */
  ghost predicate Tight(b: Block, start: nat) {
    start <= BLOCK && Tiled(F, b, start, BLOCK) && !Roomy(F, b, start, Need(MAX_NAME))
  }

  lemma TightBefore(b: Block, start: nat, len: nat, name: seq<Byte>)
    requires Tight(b, start + len) && Need(|name|) <= len < Need(|name|) + Need(MAX_NAME) && len % 4 == 0 && |name| < 256
    requires b[start..start + len] == Record(F, ROOT, len, name, 2)
    ensures Tight(b, start)
  {
    var r := Record(F, ROOT, len, name, 2);
    assert forall i :: 0 <= i < len ==> b[start + i] == r[i];
    BytesOfWord(ROOT);
    assert r[..4] == Bytes32(ROOT);
    assert Load32(r, 0) == ROOT && Ino(b, start) == ROOT;
    assert RecLen(b, start) == len && b[start + 6] == |name|;
  }

  /** The records of the block, in order. */
  lemma Slices()
    ensures var b := FullBlock();
      && b[0..12] == Record(F, ROOT, 12, DOT, 2) && b[12..24] == Record(F, ROOT, 12, DOTDOT, 2)
      && b[24..272] == Record(F, ROOT, 248, Long(237), 2) && b[272..520] == Record(F, ROOT, 248, Long(238), 2)
      && b[520..772] == Record(F, ROOT, 252, Long(239), 2) && b[772..1024] == Record(F, ROOT, 252, Long(240), 2)
  {
    hide Record, Long;
  }

  lemma AllInFront()
    ensures Front(FullBlock(), BLOCK, 241)
  {
    hide FullBlock, Record, Tiled, List, Distinct, Front, Bindings;
    var b := FullBlock();
    Slices();
    NothingInFront(b);
    FrontMore(b, 0, 0, 12, DOT);
    FrontMore(b, 12, 2, 12, DOTDOT);
    FrontMore(b, 24, 3, 248, Long(237));
    FrontMore(b, 272, 238, 248, Long(238));
    FrontMore(b, 520, 239, 252, Long(239));
    FrontMore(b, 772, 240, 252, Long(240));
  }

  lemma NothingInFront(b: Block)
    ensures Front(b, 0, 0)
  {
    Nothing(F, b, 0);
    assert Distinct([]);
  }

  lemma AllTight()
    ensures Tight(FullBlock(), 0)
  {
    hide FullBlock, Record, Tight;
    var b := FullBlock();
    Slices();
    NothingTight(b);
    TightBefore(b, 772, 252, Long(240));
    TightBefore(b, 520, 252, Long(239));
    TightBefore(b, 272, 248, Long(238));
    TightBefore(b, 24, 248, Long(237));
    TightBefore(b, 12, 12, DOTDOT);
    TightBefore(b, 0, 12, DOT);
  }

  lemma NothingTight(b: Block)
    ensures Tight(b, BLOCK)
  {
    FullAt(F, b, Need(MAX_NAME));
  }

  lemma FullDirectory()
    ensures DirOk(F, [FullBlock()]) && Full(F, [FullBlock()], NAME) && NAME !in Dir(F, [FullBlock()])
  {
    hide FullBlock, Record, Tiled, List, Distinct, Roomy, Bindings;
    var b := FullBlock();
    AllInFront();
    AllTight();
    assert Entries(F, [b]) == List(F, b, 0, BLOCK) by {
      assert [b][..0] == [];
      assert Entries(F, []) + List(F, b, 0, BLOCK) == List(F, b, 0, BLOCK);
    }
  }

  /** The formatted volume with that block for its root directory... */
  ghost function Crowded(): Vol {
    Volume().(data := Volume().data[ROOT_BLOCK := FullBlock()])
  }

  lemma CrowdedOk()
    ensures Crowded().Ok({}) && DirAt(Crowded(), true, ROOT) && DirBlocks(Crowded(), ROOT) == [FullBlock()]
  {
    Formatted();
    FullDirectory();
    RootBlock();
    hide FullBlock, NewDirBlock, Vol.Ok, DirAt, DirOk, Vol.Shape, DirBlocks;
    FreshRoot();
    assert [NewDirBlock(F, ROOT, ROOT)][0 := FullBlock()] == [FullBlock()];
    DirPoked(Volume(), true, ROOT, 0, FullBlock());
  }

  lemma RootBlock()
    ensures Volume().Shape() && FileBlock(Volume().nodes, Volume().data, ROOT, 0) == ROOT_BLOCK
  {
    FreshShape();
    hide Vol.Shape, TablesOk, Ptr;
    FreshPtr(Slot(ROOT, 0));
    assert SlotOf(ROOT, 0) == Slot(ROOT, 0);
  }

  /** ... and a free block mapped behind it. */
  ghost function Overlapped(): Vol {
    var v := Crowded();
    Vol(v.geo, v.groups, Pool(7, [7], [Taken(15, 8)], 0), v.inodes,
        v.nodes[ROOT - 1 := Root().(ptr := Root().ptr[1 := SPARE], sectors := 4)], v.data[SPARE := ZeroBlock()],
        v.owner[SPARE := Slot(ROOT, 1)])
  }

  lemma OverlappedSteps()
    ensures Filled(Crowded(), Overlapped(), ROOT, 1, SPARE) && Overlapped().Live(ROOT)
  {
    CrowdedOk();
    CrowdedFree();
    var v := Crowded();
    hide FullBlock, NewDirBlock, Vol.Ok, DirAt, DirOk, Vol.Shape, DirBlocks, Kept, Repointed, Handed, Ptr, TablesOk, InodeUsed, Data, Filled, HoleAt, Plain;
    HandedOk(v, 0, 7);
    var v1 := v.(blocks := v.blocks.Taken(0, 7), data := v.data[SPARE := ZeroBlock()]);
    Attaching(v, v1, ROOT, 1, SPARE);
    assert Taken(15, 7)[7 := true] == Taken(15, 8);
    assert v1.Attached(Slot(ROOT, 1), SPARE) == Overlapped();
  }

  lemma CrowdedFree()
    ensures Crowded().Shape() && Crowded().Live(ROOT) && HoleAt(Crowded(), ROOT, 1) && Plain(Crowded(), ROOT) && BlockNo(GEO, 0, 7) == SPARE
    ensures Crowded().blocks.Has(0, 7) && !Crowded().blocks.bits[0][7]
  {
    FreshShape();
    FreshLive();
    hide FullBlock;
  }

  /** Consistent, mountable, and spoilt by the first `touch` of that name: the call reports
      success, as Engine.Touch says. */
  lemma OverlapSpoils()
    ensures var v := Overlapped();
      && v.Ok({}) && DirAt(v, true, ROOT) && v.blocks.free > 0
      && !Uncreatable(v, true, ROOT, NAME) && Overgrows(v, true, ROOT, Listing(v, true, ROOT), NAME, 0)
  {
    CrowdedOk();
    OverlappedSteps();
    FullDirectory();
    var v, w := Crowded(), Overlapped();
    hide FullBlock, NewDirBlock, Vol.Ok, DirOk, DirBlocks, Repointed, Ptr, TablesOk, InodeUsed, Data, Full, Dir, SameRaw, SamePtrs, GroupSize;
    FilledShape(v, w, ROOT, 1, SPARE);
    DirBlocksSame(v, w, ROOT);
    FilledIs(v, w, ROOT, 1, SPARE);
    FilledPlain(v, w, ROOT, 1, SPARE);
  }

  lemma FilledShape(v: Vol, w: Vol, n: nat, count: nat, b: nat)
    requires Filled(v, w, n, count, b)
    ensures v.Shape() && w.Shape() && Same(v, w, n) && SameFrame(v, w)
  {
  }

  lemma OverlapMounts()
    ensures Ext2Mount.Laid(Overlapped().geo, Overlapped().groups)
    ensures Ext2Mount.Sized(Overlapped().geo, Overlapped().groups, Overlapped().blocks, Overlapped().inodes)
    ensures Ext2Mount.Mountable(Overlapped().geo, Overlapped().groups, Overlapped().blocks, Overlapped().inodes)
  {
    hide GroupSize, BackupGroup, Ext2Mount.GroupFits, Ext2Mount.MetadataEnd, GroupStart, Sum, FullBlock, NewDirBlock;
    Ext2Fresh.Fits();
    Mounts();
    OneSum(7);
    OneSum(6);
  }
}
