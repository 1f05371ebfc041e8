/** fs.c: insert() when no record has room. The new block goes into the slot after the last one
    without a look at what is there, although supported() lets a block be mapped past the size. */
module Ext2Growth {
  import opened Bytes
  import opened Ext2Pools
  import opened Ext2Layout
  import opened Ext2Contents
  import opened Ext2Steps
  import opened Ext2Directory
  import opened Ext2Names
  import opened Ext2Tree
  import opened Ext2Counts
  import opened Ext2Dirs
  import opened Ext2Supported

  /** The last stores of insert(): block `b` into slot `count`, the size, the block count, and the
      block itself. */
  function Extended(v: Vol, n: nat, count: nat, b: nat, c: Block): Vol {
    if 1 <= n <= |v.nodes| && count < |v.nodes[n - 1].ptr| && b < |v.data| then
      var node := v.nodes[n - 1];
      v.(nodes := v.nodes[n - 1 := node.(ptr := node.ptr[count := b], size := (count + 1) * BLOCK, sectors := node.sectors + 2)],
         data := v.data[b := c])
    else v
  }

  /** What insert() starts from when it grows directory `n`: block `b` has just been handed out. */
  ghost predicate Growing(v: Vol, v1: Vol, n: nat, count: nat, b: nat) {
    v.Ok({}) && Handed(v, v1, b) && b != 0 && v.Live(n) && Plain(v, n) && count < DIRECT
  }

  lemma GrowingRange(v: Vol, v1: Vol, n: nat, count: nat, b: nat)
    requires Growing(v, v1, n, count, b)
    ensures v.Shape() && v1.Shape() && v1.PoolsOk() && SameFrame(v, v1) && v1.nodes == v.nodes && v1.owner == v.owner
    ensures 1 <= n <= |v.nodes| && |v.nodes[n - 1].ptr| == 13 && b < |v1.data| == |v.data| && b !in v.owner
    ensures v1.data == v.data[b := ZeroBlock()] && v.nodes[n - 1].ptr[INDIRECT_SLOT] == 0
  {
    hide DataBlock, BlockUsed, InodeUsed, GroupSize, Vol.Owned, Vol.Counted;
  }

  /** A pointer after those stores, when no indirect block is overwritten. */
  lemma StoredPointer(nodes: seq<Inode>, data: seq<seq<Byte>>, z: Block, n: nat, node: Inode, count: nat, b: nat, c: Block, t: Slot)
    requires TablesOk(nodes, data) && 1 <= n <= |nodes| && count < DIRECT && b < |data|
    requires node.ptr == nodes[n - 1].ptr[count := b] && nodes[n - 1].ptr[INDIRECT_SLOT] == 0
    requires 1 <= t.ino <= |nodes| && t.k < SLOTS && b != 0 && nodes[t.ino - 1].ptr[INDIRECT_SLOT] != b
    ensures TablesOk(nodes[n - 1 := node], data[b := z][b := c])
    ensures Ptr(nodes[n - 1 := node], data[b := z][b := c], t) == if t == Slot(n, count) then b else Ptr(nodes, data, t)
  {
    hide Load32;
  }

  /** The volume stays in shape, and one pointer of one inode is changed. */
  ghost predicate Overlaid(v: Vol, w: Vol, n: nat, count: nat, b: nat) {
    && v.Shape() && w.Shape() && w.PoolsOk() && SameFrame(v, w) && v.Live(n) && Repointed(v, w, Slot(n, count), b)
    && w.nodes[n - 1].sectors == v.nodes[n - 1].sectors + 2
  }

  lemma ExtendedFrame(v: Vol, v1: Vol, n: nat, count: nat, b: nat, c: Block)
    requires Growing(v, v1, n, count, b)
    ensures Overlaid(v, Extended(v1, n, count, b, c), n, count, b)
  {
    hide DataBlock, BlockUsed, InodeUsed, GroupSize, Vol.Ok, Vol.Shape, Vol.PoolsOk, Repointed, Handed, Plain, Extended;
    ExtendedShape(v, v1, n, count, b, c);
    ExtendedRepoints(v, v1, Extended(v1, n, count, b, c), n, count, b, c);
  }

  lemma ExtendedShape(v: Vol, v1: Vol, n: nat, count: nat, b: nat, c: Block)
    requires Growing(v, v1, n, count, b)
    ensures var w := Extended(v1, n, count, b, c);
      && v.Shape() && v.Live(n) && w.Shape() && w.PoolsOk() && SameFrame(v, w)
      && w.nodes[n - 1].sectors == v.nodes[n - 1].sectors + 2
  {
    GrowingRange(v, v1, n, count, b);
    hide DataBlock, BlockUsed, InodeUsed, GroupSize, Vol.Owned, Vol.Counted, Ptr, Handed, Pool.Ok;
    var w := Extended(v1, n, count, b, c);
    StoredTables(v.nodes, v.data, ZeroBlock(), n, w.nodes[n - 1], count, b, c);
    hide TablesOk;
  }

  lemma StoredTables(nodes: seq<Inode>, data: seq<seq<Byte>>, z: Block, n: nat, node: Inode, count: nat, b: nat, c: Block)
    requires TablesOk(nodes, data) && 1 <= n <= |nodes| && count < DIRECT && b < |data| && node.ptr == nodes[n - 1].ptr[count := b]
    ensures TablesOk(nodes[n - 1 := node], data[b := z][b := c])
  {
  }

  lemma ExtendedRepoints(v: Vol, v1: Vol, w: Vol, n: nat, count: nat, b: nat, c: Block)
    requires Growing(v, v1, n, count, b) && w == Extended(v1, n, count, b, c) && v.Shape() && w.Shape() && SameFrame(v, w)
    ensures Repointed(v, w, Slot(n, count), b)
  {
    GrowingRange(v, v1, n, count, b);
    GrowingLimits(v, v1, n, count, b);
    hide InodeUsed, GroupSize, Vol.Ok, Ptr, Growing, Repointed;
    forall m: nat | v.Live(m) ensures v.nodes[m - 1].ptr[INDIRECT_SLOT] != b {
      NotIndirect(v, b, m);
    }
    hide TablesOk;
    StoresRepoint(v, w, ZeroBlock(), n, w.nodes[n - 1], count, b, c);
  }

  lemma StoresRepoint(v: Vol, w: Vol, z: Block, n: nat, node: Inode, count: nat, b: nat, c: Block)
    requires v.Shape() && w.Shape() && v.geo == w.geo && |v.nodes| == |w.nodes| && TablesOk(v.nodes, v.data)
    requires 1 <= n <= |v.nodes| && count < DIRECT && 0 < b < |v.data|
    requires node.ptr == v.nodes[n - 1].ptr[count := b] && v.nodes[n - 1].ptr[INDIRECT_SLOT] == 0
    requires w.nodes == v.nodes[n - 1 := node] && w.data == v.data[b := z][b := c]
    requires forall m: nat :: v.Live(m) ==> v.nodes[m - 1].ptr[INDIRECT_SLOT] != b
    ensures Repointed(v, w, Slot(n, count), b)
  {
    hide InodeUsed, GroupSize, Ptr, TablesOk;
    forall t: Slot | v.Live(t.ino) && t.k < SLOTS
      ensures Ptr(w.nodes, w.data, t) == if t == Slot(n, count) then b else Ptr(v.nodes, v.data, t)
    {
      StoredPointer(v.nodes, v.data, z, n, node, count, b, c, t);
    }
  }

  lemma GrowingLimits(v: Vol, v1: Vol, n: nat, count: nat, b: nat)
    requires Growing(v, v1, n, count, b)
    ensures v.Ok({}) && b != 0 && count < DIRECT
  {
  }

  /** A block nobody owns is nobody's indirect block. */
  lemma NotIndirect(v: Vol, b: nat, n: nat)
    requires v.Ok({}) && b !in v.owner && b != 0 && v.Live(n)
    ensures |v.nodes[n - 1].ptr| == 13 && v.nodes[n - 1].ptr[INDIRECT_SLOT] != b
  {
    hide DataBlock, BlockUsed, InodeUsed, GroupSize, Vol.Owned, Vol.Counted, Ptr, Vol.PoolsOk;
    if v.nodes[n - 1].ptr[INDIRECT_SLOT] != 0 {
      IndirectOwned(v, {}, n);
    }
  }

  /** With a hole in that slot, the directory has grown and nothing else has changed. */
  lemma GrownOk(v: Vol, v1: Vol, filetype: bool, n: nat, count: nat, b: nat, c: Block)
    requires Growing(v, v1, n, count, b) && Growable(v, filetype, n, count, c) && HoleAt(v, n, count)
    ensures Grew(v, Extended(v1, n, count, b, c).(owner := v1.owner[b := Slot(n, count)]), filetype, n, c)
  {
    hide Growing, Growable, Grew, Extended, Filled, HoleAt;
    Attaching(v, v1, n, count, b);
    GrewFrom(v, v1.Attached(Slot(n, count), b), filetype, n, count, b, c);
    ExtendedIs(v1, n, count, b, c);
  }

  /** Slot `count` was empty and now holds `b`. */
  ghost predicate Filled(v: Vol, w: Vol, n: nat, count: nat, b: nat) {
    && v.Ok({}) && w.Ok({}) && v.geo == w.geo && 1 <= n <= |v.nodes| == |w.nodes| && 0 < b < |w.data| && |w.data| < U32
    && Kept(v, w, n) && Repointed(v, w, Slot(n, count), b)
  }

  lemma Attaching(v: Vol, v1: Vol, n: nat, count: nat, b: nat)
    requires Growing(v, v1, n, count, b) && HoleAt(v, n, count)
    ensures TablesOk(v1.nodes, v1.data) && 1 <= n <= |v1.nodes| && count < DIRECT && b < |v1.data| < U32
    ensures Filled(v, v1.Attached(Slot(n, count), b), n, count, b)
  {
    var s := Slot(n, count);
    GrowingRange(v, v1, n, s.k, b);
    hide DataBlock, BlockUsed, InodeUsed, GroupSize, Vol.Owned, Vol.Counted, Vol.PoolsOk, Ptr, Kept, Repointed, Handed;
    HoleFillable(v, n, s.k);
    AttachStep(v, v1, s, b);
  }

  lemma GrewFrom(v: Vol, w: Vol, filetype: bool, n: nat, count: nat, b: nat, c: Block)
    requires Filled(v, w, n, count, b) && Growable(v, filetype, n, count, c)
    ensures 1 <= n <= |w.nodes| && b < |w.data| && Grew(v, Sized(w.(data := w.data[b := c]), n, (count + 1) * BLOCK), filetype, n, c)
  {
    hide Raw, GroupSize, Ptr, InodeUsed, Vol.Owned, Vol.PoolsOk, Vol.Counted, DirOk, Others, DirBlocks, Repointed, Kept, Plain, TablesOk;
    DirGrew(v, w, Sized(w.(data := w.data[b := c]), n, (count + 1) * BLOCK), filetype, n, b, c);
  }

  /** Directory `n` may take `c` as its block `count`. */
  ghost predicate Growable(v: Vol, filetype: bool, n: nat, count: nat, c: Block) {
    && v.Shape() && DirAt(v, filetype, n) && count == v.nodes[n - 1].size / BLOCK < DIRECT
    && DirOk(FormatOf(v, filetype), DirBlocks(v, n) + [c])
  }

  /** It did, and nothing else changed. */
  ghost predicate Grew(v: Vol, x: Vol, filetype: bool, n: nat, c: Block) {
    && v.Shape() && DirAt(v, filetype, n) && x.Ok({}) && Others(v, x, n) && DirAt(x, filetype, n)
    && DirBlocks(x, n) == DirBlocks(v, n) + [c] && SameMeta(v.nodes[n - 1], x.nodes[n - 1])
  }

  /** Is slot `count` of an inode empty? */
  ghost predicate HoleAt(v: Vol, n: nat, count: nat) {
    v.Shape() && 1 <= n <= |v.nodes| && count < DIRECT && FileBlock(v.nodes, v.data, n, count) == 0
  }

  lemma HoleFillable(v: Vol, n: nat, count: nat)
    requires v.Shape() && v.Live(n) && HoleAt(v, n, count)
    ensures Fillable(v, Slot(n, count))
  {
    hide Ptr, GroupSize;
    assert SlotOf(n, count) == Slot(n, count);
  }

  /** The stores in order: the pointer and the count, the block, the size. */
  lemma ExtendedIs(v: Vol, n: nat, count: nat, b: nat, c: Block)
    requires TablesOk(v.nodes, v.data) && 1 <= n <= |v.nodes| && count < DIRECT && b < |v.data| < U32
    ensures |v.nodes[n - 1].ptr| == 13
    ensures var w := v.Attached(Slot(n, count), b);
      Extended(v, n, count, b, c).(owner := v.owner[b := Slot(n, count)]) == Sized(w.(data := w.data[b := c]), n, (count + 1) * BLOCK)
  {
  }

  /** Is the volume consistent when these are the owners of its blocks? */
  ghost predicate OkWith(w: Vol, owner: map<nat, Slot>) {
    w.(owner := owner).Ok({})
  }

  ghost predicate Ownable(w: Vol) {
    exists owner :: OkWith(w, owner)
  }

  /** A block in use that no pointer of any inode names. */
  ghost predicate Lost(w: Vol, b: nat)
    requires w.Shape()
  {
    && b > 0 && DataBlock(w.geo, w.groups, b) && BlockUsed(w.geo, w.blocks, b)
    && forall s: Slot :: w.Live(s.ino) && s.k < SLOTS ==> Ptr(w.nodes, w.data, s) != b
  }

  /** What growing a directory over a mapped block leaves: that block is lost, and supported()
      refuses the directory from now on. */
  ghost predicate Spoilt(w: Vol, n: nat) {
    w.Shape() && w.PoolsOk() && w.Live(n) && !Passes(w, n, DIR_MODE) && exists b: nat :: Lost(w, b)
  }

  /** Such a volume is not consistent, whoever is said to own what. */
  lemma SpoiltNeverOk(w: Vol, n: nat, owner: map<nat, Slot>)
    requires Spoilt(w, n)
    ensures !OkWith(w, owner)
  {
    hide DataBlock, BlockUsed, InodeUsed, GroupSize, Vol.Counted, Vol.PoolsOk, Ptr, TablesOk, Passes, Lost, Vol.Owned;
    var b: nat :| Lost(w, b);
    if w.(owner := owner).Shape() {
      LostUnowned(w, w.(owner := owner), b);
    }
  }

  lemma LostUnowned(w: Vol, x: Vol, b: nat)
    requires w.Shape() && x.Shape() && x == w.(owner := x.owner) && Lost(w, b)
    ensures !x.Owned({})
  {
    hide DataBlock, BlockUsed, InodeUsed, GroupSize, Ptr, TablesOk;
  }

  lemma OverwrittenLost(v: Vol, w: Vol, n: nat, count: nat, b: nat)
    requires v.Ok({}) && Overlaid(v, w, n, count, b) && count < DIRECT && b !in v.owner && (forall p :: p in v.owner ==> p in UsedIn(w))
    requires Ptr(v.nodes, v.data, Slot(n, count)) != 0
    ensures Lost(w, Ptr(v.nodes, v.data, Slot(n, count)))
  {
    var s := Slot(n, count);
    var p := Ptr(v.nodes, v.data, s);
    OwnsIt(v, {}, s);
    hide DataBlock, BlockUsed, InodeUsed, GroupSize, Vol.Counted, Vol.PoolsOk, Ptr, TablesOk, Vol.Owned;
    forall t: Slot | w.Live(t.ino) && t.k < SLOTS ensures Ptr(w.nodes, w.data, t) != p {
      if t != s && Ptr(v.nodes, v.data, t) == p {
        OwnsIt(v, {}, t);
      }
    }
  }

  ghost function UsedIn(w: Vol): iset<nat> {
    iset b: nat | w.geo.perGroup > 0 && b > 0 && BlockUsed(w.geo, w.blocks, b)
  }

  /** What was in use still is. */
  lemma HandedUsed(v: Vol, v1: Vol, b: nat)
    requires v.Ok({}) && Handed(v, v1, b)
    ensures forall p :: p in v.owner ==> p in UsedIn(v1)
  {
    hide DataBlock, BlockUsed, InodeUsed, GroupSize, Vol.Counted, Vol.PoolsOk, Ptr, TablesOk;
    DataBlocksPositive(v1);
    forall p | p in v.owner ensures p in UsedIn(v1) {
      assert DataBlock(v1.geo, v1.groups, p);
    }
  }

  lemma {:induction false} CountSame(v: Vol, w: Vol, n: nat, k: nat)
    requires TablesOk(v.nodes, v.data) && TablesOk(w.nodes, w.data) && 1 <= n <= |v.nodes| == |w.nodes| && k <= SLOTS
    requires forall j :: 0 <= j < k ==> (Ptr(v.nodes, v.data, Slot(n, j)) == 0 <==> Ptr(w.nodes, w.data, Slot(n, j)) == 0)
    ensures CountPtrs(v, n, k) == CountPtrs(w, n, k)
  {
    hide Ptr, TablesOk;
    if k > 0 {
      CountSame(v, w, n, k - 1);
    }
  }

  lemma OverwrittenRefused(v: Vol, w: Vol, n: nat, count: nat, b: nat)
    requires v.Ok({}) && Overlaid(v, w, n, count, b) && count < DIRECT && b != 0
    requires Ptr(v.nodes, v.data, Slot(n, count)) != 0
    ensures !Passes(w, n, DIR_MODE)
  {
    BlocksSupported(v, n);
    hide DataBlock, BlockUsed, InodeUsed, GroupSize, Vol.Counted, Vol.PoolsOk, Vol.Owned, Ptr, TablesOk, CountPtrs, IsDir, BlocksGood;
    forall j | 0 <= j < SLOTS ensures Ptr(v.nodes, v.data, Slot(n, j)) == 0 <==> Ptr(w.nodes, w.data, Slot(n, j)) == 0 {
      assert Ptr(w.nodes, w.data, Slot(n, j)) == if Slot(n, j) == Slot(n, count) then b else Ptr(v.nodes, v.data, Slot(n, j));
    }
    CountSame(v, w, n, SLOTS);
  }

  lemma OverwrittenSpoils(v: Vol, v1: Vol, n: nat, count: nat, b: nat, c: Block)
    requires Growing(v, v1, n, count, b) && v.Shape() && !HoleAt(v, n, count)
    ensures Spoilt(Extended(v1, n, count, b, c), n)
  {
    GrowingRange(v, v1, n, count, b);
    ExtendedFrame(v, v1, n, count, b, c);
    HandedUsed(v, v1, b);
    hide DataBlock, BlockUsed, GroupSize, Ptr, Handed, Pool.Ok, Repointed, Vol.Owned, Vol.Counted, InodeUsed, Passes, Lost, Vol.PoolsOk, TablesOk;
    assert SlotOf(n, count) == Slot(n, count);
    var w := Extended(v1, n, count, b, c);
    OverwrittenLost(v, w, n, count, b);
    OverwrittenRefused(v, w, n, count, b);
  }

  /** insert() grows a directory correctly exactly when the slot after its last block is a hole,
      which its caller could check. */
  lemma GrowthExactly(v: Vol, v1: Vol, filetype: bool, n: nat, count: nat, b: nat, c: Block)
    requires Growing(v, v1, n, count, b) && Growable(v, filetype, n, count, c)
    ensures Ownable(Extended(v1, n, count, b, c)) <==> HoleAt(v, n, count)
  {
    hide Extended, Growing, Growable, Vol.Ok, Vol.Shape, HoleAt, Spoilt, Grew;
    var w := Extended(v1, n, count, b, c);
    if HoleAt(v, n, count) {
      GrownOk(v, v1, filetype, n, count, b, c);
      GrewOk(v, w, w.(owner := v1.owner[b := Slot(n, count)]), filetype, n, c);
    } else {
      ShapeOf(v, filetype, n, count, c);
      OverwrittenSpoils(v, v1, n, count, b, c);
      forall owner ensures !OkWith(w, owner) {
        SpoiltNeverOk(w, n, owner);
      }
    }
  }

  lemma GrewOk(v: Vol, w: Vol, x: Vol, filetype: bool, n: nat, c: Block)
    requires Grew(v, x, filetype, n, c) && x == w.(owner := x.owner)
    ensures OkWith(w, x.owner)
  {
    hide Vol.Ok, DirAt;
  }

  lemma ShapeOf(v: Vol, filetype: bool, n: nat, count: nat, c: Block)
    requires Growable(v, filetype, n, count, c)
    ensures v.Shape()
  {
  }
}
