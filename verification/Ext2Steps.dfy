/** fs.c: one allocation, one release, one store into a block, as steps between consistent volumes. */
module Ext2Steps {
  import opened Bytes
  import opened Ext2Pools
  import opened Ext2Layout
  import opened Ext2Contents

  function ZeroBlock(): (z: seq<Byte>)
    ensures Zero(z)
  {
    seq(BLOCK, i requires 0 <= i < BLOCK => 0)
  }

  /** What allocating block `n` did. */
  ghost predicate Handed(v: Vol, w: Vol, n: nat) {
    && v.Shape() && v.geo.perGroup > 0 && DataBlock(v.geo, v.groups, n) && n !in v.owner && n < |v.data|
    && !BlockUsed(v.geo, v.blocks, n)
    && w == v.(blocks := w.blocks, data := v.data[n := ZeroBlock()])
    && w.blocks.free + 1 == v.blocks.free
    && w.Ok({n})
  }

  /** Setting one clear bit. */
  lemma TakenUsed(geo: Geometry, p: Pool, b: nat, c: nat)
    requires geo.perGroup > 0 && 0 < b < geo.blocks && 0 < c < geo.blocks
    requires p.Has(GroupOf(geo, b), IndexOf(geo, b)) && |p.groupFree| == |p.bits|
    requires p.free > 0 && p.groupFree[GroupOf(geo, b)] > 0
    ensures BlockUsed(geo, p.Taken(GroupOf(geo, b), IndexOf(geo, b)), c) <==> c == b || BlockUsed(geo, p, c)
  {
    PlaceBlock(geo, b);
    PlaceBlock(geo, c);
  }

  lemma TakenOwned(v: Vol, w: Vol, n: nat)
    requires v.Shape() && v.Owned({}) && n < |v.data| && w.Shape()
    requires DataBlock(v.geo, v.groups, n) && !BlockUsed(v.geo, v.blocks, n)
    requires w == v.(blocks := w.blocks)
    requires forall c: nat :: DataBlock(v.geo, v.groups, c) ==>
      (BlockUsed(v.geo, w.blocks, c) <==> c == n || BlockUsed(v.geo, v.blocks, c))
    ensures w.Owned({n}) && n !in v.owner
  {
    hide Ptr, DataBlock, BlockUsed, InodeUsed, TablesOk, GroupSize;
  }

  lemma TakenPools(v: Vol, g: nat, i: nat)
    requires v.Shape() && v.PoolsOk() && v.blocks.Has(g, i) && !v.blocks.bits[g][i]
    ensures v.blocks.free > 0 && v.blocks.groupFree[g] > 0 && |v.blocks.groupFree| == |v.blocks.bits|
    ensures v.(blocks := v.blocks.Taken(g, i)).PoolsOk()
    ensures v.(blocks := v.blocks.Taken(g, i)).Shape()
  {
    hide DataBlock, TablesOk, InodeUsed;
    TakenOk(v.blocks, g, i);
    hide Pool.Ok;
  }

  /** A free bit is a block that may be handed out. */
  lemma FreeBlock(v: Vol, g: nat, i: nat)
    requires v.Shape() && v.PoolsOk() && v.blocks.Has(g, i) && !v.blocks.bits[g][i]
    ensures var n := BlockNo(v.geo, g, i);
      0 < n < |v.data| && DataBlock(v.geo, v.groups, n) && GroupOf(v.geo, n) == g && IndexOf(v.geo, n) == i
      && !BlockUsed(v.geo, v.blocks, n)
  {
    var n := BlockNo(v.geo, g, i);
    assert i < GroupSize(v.geo, g);
    BlockPlace(v.geo, g, i);
    hide TablesOk, Pool.Ok;
    assert DataBlock(v.geo, v.groups, n);
    hide DataBlock;
    DataBlockRange(v.geo, v.groups, n);
  }

  lemma TakenAllUsed(v: Vol, n: nat)
    requires v.Shape() && 0 < n < |v.data| && v.blocks.Has(GroupOf(v.geo, n), IndexOf(v.geo, n))
    requires |v.blocks.groupFree| == |v.blocks.bits| && v.blocks.free > 0 && v.blocks.groupFree[GroupOf(v.geo, n)] > 0
    ensures forall c: nat :: DataBlock(v.geo, v.groups, c) ==>
      (BlockUsed(v.geo, v.blocks.Taken(GroupOf(v.geo, n), IndexOf(v.geo, n)), c) <==> c == n || BlockUsed(v.geo, v.blocks, c))
  {
    hide BlockUsed, TablesOk, GroupOf, IndexOf;
    forall c: nat | DataBlock(v.geo, v.groups, c)
      ensures BlockUsed(v.geo, v.blocks.Taken(GroupOf(v.geo, n), IndexOf(v.geo, n)), c) <==> c == n || BlockUsed(v.geo, v.blocks, c)
    {
      TakenUsed(v.geo, v.blocks, n, c);
    }
  }

  lemma HandedOk(v: Vol, g: nat, i: nat)
    requires v.Ok({}) && v.blocks.Has(g, i) && !v.blocks.bits[g][i]
    ensures v.blocks.free > 0 && v.blocks.groupFree[g] > 0 && |v.blocks.groupFree| == |v.blocks.bits|
    ensures BlockNo(v.geo, g, i) < |v.data| && DataBlock(v.geo, v.groups, BlockNo(v.geo, g, i))
    ensures Handed(v, v.(blocks := v.blocks.Taken(g, i), data := v.data[BlockNo(v.geo, g, i) := ZeroBlock()]), BlockNo(v.geo, g, i))
  {
    hide Ptr, DataBlock, BlockUsed, InodeUsed, Pool.Ok, GroupSize, Vol.Counted, Vol.Owned, GroupOf, IndexOf, TablesOk;
    TakenPools(v, g, i);
    FreeBlock(v, g, i);
    var n := BlockNo(v.geo, g, i);
    TakenAllUsed(v, n);
    var u := v.(blocks := v.blocks.Taken(g, i));
    assert u.Shape() && u.PoolsOk();
    hide Vol.PoolsOk, Vol.Shape;
    TakenOwned(v, u, n);
    TakenCounted(v, u);
    StoredOk(u, {n}, n, ZeroBlock());
  }

  lemma TakenCounted(v: Vol, w: Vol)
    requires v.Shape() && v.Counted() && w == v.(blocks := w.blocks)
    ensures w.Counted()
  {
    hide InodeUsed, TablesOk;
    forall n: nat | w.Live(n) ensures w.nodes[n - 1].sectors == 2 * |OwnedBy(w.owner, n)| {
      assert v.Live(n);
    }
  }

  /** The search of allocate(): round the groups from the hint. */
  method FindFree(p: Pool, first: nat) returns (found: bool, g: nat, i: nat)
    requires |p.groupFree| == |p.bits| > 0 && first <= |p.bits[0]|
    ensures found <==> SearchFrom(p, first, 0).Found?
    ensures found ==> SearchFrom(p, first, 0) == Found(g, i)
  {
    var step := 0;
    while step < |p.bits|
      invariant 0 <= step <= |p.bits| && SearchFrom(p, first, 0) == SearchFrom(p, first, step)
    {
      g := (p.hint + step) % |p.bits|;
      if p.groupFree[g] != 0 {
        var start := if g == 0 then first else 0;
        i := start;
        while i < |p.bits[g]| && p.bits[g][i]
          invariant i <= |p.bits[g]| && FirstClear(p.bits[g], start) == FirstClear(p.bits[g], i)
        {
          i := i + 1;
        }
        return i < |p.bits[g]|, g, i;
      }
      step := step + 1;
    }
    return false, 0, 0;
  }

  /** Nothing is stored in an inode's slots above an empty indirect slot. */
  lemma NoIndirect(nodes: seq<Inode>, data: seq<seq<Byte>>, n: nat)
    requires TablesOk(nodes, data) && 1 <= n <= |nodes| && Ptr(nodes, data, Slot(n, INDIRECT_SLOT)) == 0
    ensures forall k :: INDIRECT_SLOT < k < SLOTS ==> Ptr(nodes, data, Slot(n, k)) == 0
  {
  }

  lemma PtrCount(nodes: seq<Inode>, data: seq<seq<Byte>>, n: nat)
    requires TablesOk(nodes, data) && 1 <= n <= |nodes|
    ensures |nodes[n - 1].ptr| == 13
  {
  }

  lemma PointedMeta(nodes: seq<Inode>, s: Slot, b: nat, sectors: nat, m: nat)
    requires 1 <= s.ino <= |nodes| && s.k < SLOTS && |nodes[s.ino - 1].ptr| == 13 && 1 <= m <= |nodes|
    ensures SameMeta(nodes[m - 1], PointNodes(nodes, s, b, sectors)[m - 1])
    ensures nodes[m - 1].size == PointNodes(nodes, s, b, sectors)[m - 1].size
  {
  }

  /** Where a file slot may be filled: its indirect block is there. */
  ghost predicate Fillable(v: Vol, s: Slot)
    requires v.Shape()
  {
    v.Live(s.ino) && s.k < SLOTS && Ptr(v.nodes, v.data, s) == 0 && (s.k > INDIRECT_SLOT ==> v.nodes[s.ino - 1].ptr[INDIRECT_SLOT] != 0)
  }

  /** Handing out a block moves no pointer. */
  lemma HandedFillable(u: Vol, v: Vol, s: Slot, b: nat)
    requires u.Ok({}) && Handed(u, v, b) && Fillable(u, s)
    ensures v.Shape() && Fillable(v, s)
  {
    hide Ptr, DataBlock, BlockUsed, InodeUsed, Pool.Ok, GroupSize, Vol.Counted, Vol.Owned, Vol.PoolsOk;
    StoredPtr(u, {}, b, ZeroBlock(), s);
  }

  lemma HandedRaw(u: Vol, v: Vol, b: nat, n: nat)
    requires u.Ok({}) && Handed(u, v, b) && u.Live(n)
    ensures SameRaw(u, v, n)
  {
    hide Ptr, DataBlock, BlockUsed, InodeUsed, Pool.Ok, GroupSize, Vol.Counted, Vol.Owned, Vol.PoolsOk, FileBlock;
    UnownedRaw(u, {}, b, ZeroBlock(), n);
    assert u.(data := u.data[b := ZeroBlock()]).data == v.data;
    forall off: nat | off < MAX_FILE ensures Raw(v, n, off) == Raw(u, n, off) {
      assert Raw(u.(data := u.data[b := ZeroBlock()]), n, off) == Raw(u, n, off);
    }
  }

  lemma AttachPtrs(u: Vol, v: Vol, s: Slot, b: nat)
    requires u.Ok({}) && Handed(u, v, b) && b != 0 && v.Shape() && Fillable(v, s)
    requires v.Attached(s, b).Shape() && Repointed(v, v.Attached(s, b), s, b) && SameFrame(v, v.Attached(s, b))
    ensures Repointed(u, v.Attached(s, b), s, b)
  {
    hide Ptr, DataBlock, BlockUsed, InodeUsed, Pool.Ok, GroupSize, Vol.Counted, Vol.Owned, Vol.PoolsOk, PointNodes, PointData, TablesOk;
    var w := v.Attached(s, b);
    forall t: Slot | u.Live(t.ino) && t.k < SLOTS
      ensures Ptr(w.nodes, w.data, t) == if t == s then b else Ptr(u.nodes, u.data, t)
    {
      StoredPtr(u, {}, b, ZeroBlock(), t);
      assert v.Live(t.ino);
    }
  }

  lemma AttachKept(u: Vol, v: Vol, s: Slot, b: nat)
    requires u.Ok({}) && Handed(u, v, b) && b != 0 && v.Shape() && Fillable(v, s)
    requires v.Attached(s, b).Shape() && Repointed(v, v.Attached(s, b), s, b) && SameFrame(v, v.Attached(s, b))
    requires Repointed(u, v.Attached(s, b), s, b)
    ensures Kept(u, v.Attached(s, b), s.ino)
  {
    hide Ptr, DataBlock, BlockUsed, InodeUsed, Pool.Ok, GroupSize, Vol.Counted, Vol.Owned, Vol.PoolsOk, PointNodes, PointData, Raw, TablesOk;
    var w := v.Attached(s, b);
    assert w.owner == u.owner[b := s];
    forall m: nat | u.Live(m) ensures Same(u, w, m) && (m != s.ino ==> SamePtrs(u, w, m)) {
      HandedRaw(u, v, b, m);
      AttachedRaw(v, s, b, m);
      RawChain(u, v, w, m);
      PtrCount(v.nodes, v.data, s.ino);
      PointedMeta(v.nodes, s, b, v.nodes[s.ino - 1].sectors + 2, m);
    }
  }

  /** Attaching a freshly handed-out block changes no byte of any file. */
  lemma AttachStep(u: Vol, v: Vol, s: Slot, b: nat)
    requires u.Ok({}) && Handed(u, v, b) && b != 0 && Fillable(u, s)
    ensures v.Shape() && v.Live(s.ino)
    ensures v.Attached(s, b).Ok({}) && Kept(u, v.Attached(s, b), s.ino) && Repointed(u, v.Attached(s, b), s, b)
  {
    hide Ptr, DataBlock, BlockUsed, InodeUsed, Pool.Ok, GroupSize, Vol.Counted, Vol.Owned, Vol.PoolsOk, PointNodes, PointData, Raw, Repointed, TablesOk, Kept;
    HandedFillable(u, v, s, b);
    if s.k == INDIRECT_SLOT {
      NoIndirect(v.nodes, v.data, s.ino);
    }
    AttachedOk(v, s, b);
    AttachPtrs(u, v, s, b);
    AttachKept(u, v, s, b);
  }

  lemma OtherPtrs(v: Vol, w: Vol, s: Slot, b: nat, m: nat)
    requires v.Shape() && w.Shape() && SameFrame(v, w) && Repointed(v, w, s, b) && v.Live(m) && m != s.ino
    ensures SamePtrs(v, w, m)
  {
    hide Ptr, TablesOk, InodeUsed, GroupSize;
    forall k | 0 <= k < SLOTS ensures Ptr(w.nodes, w.data, Slot(m, k)) == Ptr(v.nodes, v.data, Slot(m, k)) {
      assert Slot(m, k).ino == m && Slot(m, k) != s;
    }
  }

  /** Giving a file's block back: its stretch of the file becomes zero. */
  lemma DetachStep(v: Vol, s: Slot, b: nat)
    requires v.Ok({}) && v.Live(s.ino) && s.k < SLOTS && b != 0 && Ptr(v.nodes, v.data, s) == b
    requires s.k == INDIRECT_SLOT ==> forall k :: INDIRECT_SLOT < k < SLOTS ==> Ptr(v.nodes, v.data, Slot(s.ino, k)) == 0
    ensures v.Holds(s, b) && v.Detached(s, b).Ok({}) && Others(v, v.Detached(s, b), s.ino)
    ensures Repointed(v, v.Detached(s, b), s, 0)
    ensures forall off: nat :: off < MAX_FILE ==>
      Raw(v.Detached(s, b), s.ino, off) == if SlotOf(s.ino, off / BLOCK) == s then 0 else Raw(v, s.ino, off)
    ensures SameMeta(v.nodes[s.ino - 1], v.Detached(s, b).nodes[s.ino - 1])
    ensures v.Detached(s, b).nodes[s.ino - 1].size == v.nodes[s.ino - 1].size
  {
    hide Ptr, DataBlock, BlockUsed, InodeUsed, Pool.Ok, Pool.Has, GroupSize, Vol.Counted, Vol.Owned, Vol.PoolsOk, PointNodes, PointData, Raw, Repointed, TablesOk, GroupOf, IndexOf;
    DetachedOk(v, s, b);
    HoldsIt(v, s);
    var w := v.Detached(s, b);
    assert w.owner == v.owner - {b} && w.owner.Keys == v.owner.Keys - {b};
    DetachedRaw(v, s, b, s.ino);
    PtrCount(v.nodes, v.data, s.ino);
    PointedMeta(v.nodes, s, 0, v.nodes[s.ino - 1].sectors - 2, s.ino);
    forall m: nat | v.Live(m) && m != s.ino ensures Same(v, w, m) && SamePtrs(v, w, m) {
      OtherPtrs(v, w, s, 0, m);
      DetachedRaw(v, s, b, m);
      PointedMeta(v.nodes, s, 0, v.nodes[s.ino - 1].sectors - 2, m);
    }
  }

  /** The volume after `memcpy` into block `b`. */
  function Poked(v: Vol, b: nat, within: nat, chunk: seq<Byte>): Vol
    requires b < |v.data| && within + |chunk| <= |v.data[b]|
  {
    v.(data := v.data[b := Splice(v.data[b], within, chunk)])
  }

  lemma StoredPtrs(v: Vol, b: nat, bytes: seq<Byte>, m: nat)
    requires v.Ok({}) && b < |v.data| && |bytes| == BLOCK && v.Live(m) && v.(data := v.data[b := bytes]).Shape()
    requires b in v.owner ==> v.owner[b].k != INDIRECT_SLOT
    ensures SamePtrs(v, v.(data := v.data[b := bytes]), m)
  {
    hide Ptr, DataBlock, BlockUsed, InodeUsed, Pool.Ok, GroupSize, Vol.Counted, Vol.Owned, Vol.PoolsOk;
    forall k | 0 <= k < SLOTS ensures Ptr(v.nodes, v.data[b := bytes], Slot(m, k)) == Ptr(v.nodes, v.data, Slot(m, k)) {
      StoredPtr(v, {}, b, bytes, Slot(m, k));
    }
  }

  lemma SplicedNothing(v: Vol, w: Vol, n: nat, offset: nat)
    requires v.Shape() && w.Shape() && 1 <= n <= |v.nodes| == |w.nodes| && Spliced(v, w, n, offset, [])
    ensures SameRaw(v, w, n)
  {
    hide Raw, TablesOk, GroupSize;
  }

  /** Writing into a block of a file changes those bytes of that file and nothing else. */
  lemma PokeStep(v: Vol, n: nat, index: nat, within: nat, chunk: seq<Byte>)
    requires v.Ok({}) && v.Live(n) && index < FILE_BLOCKS && FileBlock(v.nodes, v.data, n, index) != 0 && within + |chunk| <= BLOCK
    ensures var b := FileBlock(v.nodes, v.data, n, index);
      && b < |v.data| && |v.data[b]| == BLOCK
      && Poked(v, b, within, chunk).Ok({}) && Others(v, Poked(v, b, within, chunk), n)
      && Spliced(v, Poked(v, b, within, chunk), n, BLOCK * index + within, chunk)
      && SamePtrs(v, Poked(v, b, within, chunk), n)
      && forall i :: 0 <= i < FILE_BLOCKS ==> FileBlock(v.nodes, Poked(v, b, within, chunk).data, n, i) == FileBlock(v.nodes, v.data, n, i)
  {
    hide Ptr, DataBlock, BlockUsed, InodeUsed, Pool.Ok, GroupSize, Vol.Counted, Vol.Owned, Vol.PoolsOk, Raw, FileBlock, Splice;
    FileOwned(v, {}, n, index);
    var b := FileBlock(v.nodes, v.data, n, index);
    var bytes := Splice(v.data[b], within, chunk);
    StoredOk(v, {}, b, bytes);
    var w := Poked(v, b, within, chunk);
    SplicedRaw(v, n, index, within, chunk, n);
    forall m: nat | v.Live(m) && m != n ensures Same(v, w, m) && SamePtrs(v, w, m) {
      SplicedRaw(v, n, index, within, chunk, m);
      SplicedNothing(v, w, m, BLOCK * index + within);
      StoredPtrs(v, b, bytes, m);
    }
    StoredPtrs(v, b, bytes, n);
    forall i | 0 <= i < FILE_BLOCKS ensures FileBlock(v.nodes, w.data, n, i) == FileBlock(v.nodes, v.data, n, i) {
      StoredBlocks(v, {}, b, bytes, n, i);
    }
  }

  lemma PoolReady(v: Vol)
    requires v.Ok({})
    ensures v.blocks.Ok() && v.inodes.Ok() && v.geo.firstInode - 1 <= |v.inodes.bits[0]|
    ensures forall i :: 0 <= i < v.geo.firstInode - 1 ==> v.inodes.bits[0][i]
  {
  }

  lemma OthersRefl(v: Vol, n: nat)
    requires v.Shape()
    ensures Others(v, v, n) && (1 <= n <= |v.nodes| ==> Kept(v, v, n))
  {
  }

  lemma IndirectPtr(nodes: seq<Inode>, data: seq<seq<Byte>>, n: nat)
    requires TablesOk(nodes, data) && 1 <= n <= |nodes|
    ensures Ptr(nodes, data, Slot(n, INDIRECT_SLOT)) == nodes[n - 1].ptr[INDIRECT_SLOT]
  {
  }

  function Max(a: nat, b: nat): nat {
    if a < b then b else a
  }

  lemma SplicedNone(v: Vol, n: nat, offset: nat, bytes: seq<Byte>)
    requires v.Shape() && 1 <= n <= |v.nodes|
    ensures Spliced(v, v, n, offset, bytes[..0])
  {
  }

  /** Making room changed no byte, so what was known of the file being written still is. */
  lemma WriteKept(v0: Vol, v1: Vol, v2: Vol, n: nat)
    requires v0.Shape() && v1.Shape() && v2.Shape() && v0.Live(n) && Others(v0, v1, n)
    requires |v1.nodes| == |v2.nodes| && n <= |v1.nodes| && Kept(v1, v2, n)
    ensures Others(v0, v2, n) && SameRaw(v1, v2, n) && v2.Live(n)
    ensures SameMeta(v1.nodes[n - 1], v2.nodes[n - 1]) && v1.nodes[n - 1].size == v2.nodes[n - 1].size
  {
    hide Raw, Ptr, TablesOk, InodeUsed, GroupSize, SameRaw, SamePtrs;
    OthersChain(v0, v1, v2, n);
  }

  /** One turn of write_range: `chunk` more bytes are in the file. */
  lemma WriteStep(v0: Vol, v1: Vol, v2: Vol, v3: Vol, n: nat, offset: nat, bytes: seq<Byte>, done: nat, chunk: nat)
    requires v0.Shape() && v1.Shape() && v2.Shape() && v3.Shape() && v0.Live(n)
    requires |v1.nodes| == |v0.nodes| && |v2.nodes| == |v0.nodes| && |v3.nodes| == |v0.nodes|
    requires done + chunk <= |bytes| && Others(v0, v2, n) && Others(v2, v3, n) && SameRaw(v1, v2, n)
    requires Spliced(v0, v1, n, offset, bytes[..done])
    requires Spliced(v2, v3, n, offset + done, bytes[done..done + chunk])
    ensures Others(v0, v3, n) && Spliced(v0, v3, n, offset, bytes[..done + chunk])
  {
    hide Raw, TablesOk, InodeUsed, GroupSize;
    OthersChain(v0, v2, v3, n);
    hide Others;
    forall off: nat | off < MAX_FILE
      ensures Raw(v3, n, off) == if offset <= off < offset + (done + chunk) then bytes[..done + chunk][off - offset] else Raw(v0, n, off)
    {
      assert Raw(v2, n, off) == Raw(v1, n, off);
      assert Raw(v1, n, off) == if offset <= off < offset + done then bytes[..done][off - offset] else Raw(v0, n, off);
    }
  }

  /** Changing what an inode says about itself moves no block and changes no byte. */
  lemma NodeStep(v: Vol, n: nat, node: Inode)
    requires v.Ok({}) && v.Live(n) && node.ptr == v.nodes[n - 1].ptr && node.sectors == v.nodes[n - 1].sectors
    ensures var w := v.(nodes := v.nodes[n - 1 := node]);
      && w.Ok({}) && Others(v, w, n) && SameRaw(v, w, n) && SamePtrs(v, w, n)
      && forall i :: 0 <= i < FILE_BLOCKS ==> FileBlock(w.nodes, v.data, n, i) == FileBlock(v.nodes, v.data, n, i)
  {
    hide DataBlock, BlockUsed, InodeUsed, Pool.Ok, GroupSize, Ptr, TablesOk, Raw;
    var w := v.(nodes := v.nodes[n - 1 := node]);
    forall t: Slot | 1 <= t.ino <= |v.nodes| && t.k < SLOTS ensures TablesOk(w.nodes, w.data) && Ptr(w.nodes, w.data, t) == Ptr(v.nodes, v.data, t) {
      NodePtr(v, n, node, t);
    }
    assert TablesOk(w.nodes, w.data) by {
      NodePtr(v, n, node, Slot(n, 0));
    }
    forall m: nat | v.Live(m) ensures SameRaw(v, w, m) && SamePtrs(v, w, m) {
      NodeRaw(v, n, node, m);
    }
  }

  lemma NodePtr(v: Vol, n: nat, node: Inode, t: Slot)
    requires TablesOk(v.nodes, v.data) && 1 <= n <= |v.nodes| && node.ptr == v.nodes[n - 1].ptr && 1 <= t.ino <= |v.nodes| && t.k < SLOTS
    ensures TablesOk(v.nodes[n - 1 := node], v.data) && Ptr(v.nodes[n - 1 := node], v.data, t) == Ptr(v.nodes, v.data, t)
  {
  }

  lemma NodeRaw(v: Vol, n: nat, node: Inode, m: nat)
    requires v.Shape() && 1 <= n <= |v.nodes| && node.ptr == v.nodes[n - 1].ptr && 1 <= m <= |v.nodes|
    requires v.(nodes := v.nodes[n - 1 := node]).Shape()
    ensures SameRaw(v, v.(nodes := v.nodes[n - 1 := node]), m)
  {
    hide Ptr, TablesOk, GroupSize;
    var w := v.(nodes := v.nodes[n - 1 := node]);
    forall off: nat | off < MAX_FILE ensures Raw(w, m, off) == Raw(v, m, off) {
      NodePtr(v, n, node, SlotOf(m, off / BLOCK));
    }
  }

  /** The volume after the size of a file was set. */
  function Sized(v: Vol, n: nat, size: nat): Vol
    requires 1 <= n <= |v.nodes|
  {
    v.(nodes := v.nodes[n - 1 := v.nodes[n - 1].(size := size)])
  }

  lemma SizedStep(v: Vol, n: nat, size: nat)
    requires v.Ok({}) && v.Live(n)
    ensures Sized(v, n, size).Ok({}) && Others(v, Sized(v, n, size), n) && SameRaw(v, Sized(v, n, size), n) && SamePtrs(v, Sized(v, n, size), n)
    ensures forall i :: 0 <= i < FILE_BLOCKS ==> FileBlock(Sized(v, n, size).nodes, v.data, n, i) == FileBlock(v.nodes, v.data, n, i)
  {
    hide Vol.Ok, Others, SameRaw, SamePtrs, FileBlock;
    NodeStep(v, n, v.nodes[n - 1].(size := size));
  }

  lemma SplicedSized(v0: Vol, v: Vol, n: nat, offset: nat, bytes: seq<Byte>, size: nat)
    requires 1 <= n <= |v0.nodes| == |v.nodes| && v0.Shape() && v.Shape() && Sized(v, n, size).Shape()
    requires SameRaw(v, Sized(v, n, size), n) && Spliced(v0, v, n, offset, bytes)
    ensures Spliced(v0, Sized(v, n, size), n, offset, bytes)
  {
    hide Raw, TablesOk, GroupSize;
    forall off: nat | off < MAX_FILE
      ensures Raw(Sized(v, n, size), n, off) == if offset <= off < offset + |bytes| then bytes[off - offset] else Raw(v0, n, off)
    {
      assert Raw(Sized(v, n, size), n, off) == Raw(v, n, off);
    }
  }

  /** Inode `n` has zeros from block `keep` up to block `upTo`, and the bytes of `v` elsewhere. */
  ghost predicate Wiped(v: Vol, w: Vol, n: nat, keep: nat, upTo: nat)
    requires v.Shape() && w.Shape() && 1 <= n <= |v.nodes| == |w.nodes|
  {
    forall off: nat :: off < MAX_FILE ==>
      Raw(w, n, off) == if keep <= off / BLOCK < upTo then 0 else Raw(v, n, off)
  }

  lemma WipedNone(v: Vol, n: nat, keep: nat)
    requires v.Shape() && 1 <= n <= |v.nodes|
    ensures Wiped(v, v, n, keep, keep)
  {
  }

  /** A hole is already zero. */
  lemma WipedHole(v: Vol, w: Vol, n: nat, keep: nat, i: nat)
    requires v.Shape() && w.Shape() && 1 <= n <= |v.nodes| == |w.nodes| && i < FILE_BLOCKS
    requires Wiped(v, w, n, keep, i) && FileBlock(w.nodes, w.data, n, i) == 0
    ensures Wiped(v, w, n, keep, i + 1)
  {
    hide TablesOk, GroupSize, FileBlock;
  }

  /** One turn of truncate_blocks. */
  lemma WipedStep(v: Vol, w: Vol, n: nat, keep: nat, i: nat, b: nat)
    requires v.Shape() && w.Ok({}) && |v.nodes| == |w.nodes| && v.Live(n) && w.Live(n) && keep <= i < FILE_BLOCKS
    requires Others(v, w, n) && Wiped(v, w, n, keep, i) && b != 0 && FileBlock(w.nodes, w.data, n, i) == b
    requires forall j :: keep <= j < i ==> FileBlock(w.nodes, w.data, n, j) == 0
    ensures w.Holds(SlotOf(n, i), b)
    ensures var x := w.Detached(SlotOf(n, i), b);
      && x.Ok({}) && Others(v, x, n) && Wiped(v, x, n, keep, i + 1) && x.Live(n)
      && SameMeta(w.nodes[n - 1], x.nodes[n - 1]) && x.nodes[n - 1].size == w.nodes[n - 1].size
      && forall j :: keep <= j <= i ==> FileBlock(x.nodes, x.data, n, j) == 0
  {
    hide Ptr, DataBlock, BlockUsed, InodeUsed, Pool.Ok, Pool.Has, GroupSize, Vol.Counted, Vol.Owned, Vol.PoolsOk, Raw, PointNodes, PointData, TablesOk, GroupOf, IndexOf, Others;
    DetachStep(w, SlotOf(n, i), b);
    var x := w.Detached(SlotOf(n, i), b);
    OthersChain(v, w, x, n);
    hide Vol.Holds;
    forall off: nat | off < MAX_FILE ensures Raw(x, n, off) == if keep <= off / BLOCK < i + 1 then 0 else Raw(v, n, off) {
      assert Raw(w, n, off) == if keep <= off / BLOCK < i then 0 else Raw(v, n, off);
      assert SlotOf(n, off / BLOCK) == SlotOf(n, i) <==> off / BLOCK == i;
    }
    forall j | keep <= j <= i ensures FileBlock(x.nodes, x.data, n, j) == 0 {
      assert SlotOf(n, j) == SlotOf(n, i) <==> j == i;
      assert j < i ==> FileBlock(w.nodes, w.data, n, j) == 0;
      assert Ptr(x.nodes, x.data, SlotOf(n, j)) == if j == i then 0 else Ptr(w.nodes, w.data, SlotOf(n, j));
    }
  }

  /** Giving the emptied indirect block back. */
  lemma WipedIndirect(v: Vol, w: Vol, n: nat, keep: nat, b: nat)
    requires v.Shape() && w.Ok({}) && |v.nodes| == |w.nodes| && v.Live(n) && w.Live(n) && keep <= DIRECT
    requires Others(v, w, n) && Wiped(v, w, n, keep, FILE_BLOCKS) && b != 0 && Ptr(w.nodes, w.data, Slot(n, INDIRECT_SLOT)) == b
    requires forall j :: keep <= j < FILE_BLOCKS ==> FileBlock(w.nodes, w.data, n, j) == 0
    ensures w.Holds(Slot(n, INDIRECT_SLOT), b)
    ensures var x := w.Detached(Slot(n, INDIRECT_SLOT), b);
      && x.Ok({}) && Others(v, x, n) && Wiped(v, x, n, keep, FILE_BLOCKS) && x.Live(n)
      && SameMeta(w.nodes[n - 1], x.nodes[n - 1]) && x.nodes[n - 1].size == w.nodes[n - 1].size
      && Ptr(x.nodes, x.data, Slot(n, INDIRECT_SLOT)) == 0
      && forall j :: keep <= j < FILE_BLOCKS ==> FileBlock(x.nodes, x.data, n, j) == 0
  {
    hide Ptr, DataBlock, BlockUsed, InodeUsed, Pool.Ok, Pool.Has, GroupSize, Vol.Counted, Vol.Owned, Vol.PoolsOk, Raw, PointNodes, PointData, TablesOk, GroupOf, IndexOf, Others;
    var s := Slot(n, INDIRECT_SLOT);
    forall k | INDIRECT_SLOT < k < SLOTS ensures Ptr(w.nodes, w.data, Slot(n, k)) == 0 {
      assert FileBlock(w.nodes, w.data, n, k - 1) == 0;
    }
    DetachStep(w, s, b);
    var x := w.Detached(s, b);
    OthersChain(v, w, x, n);
    hide Vol.Holds;
    forall off: nat | off < MAX_FILE ensures Raw(x, n, off) == if keep <= off / BLOCK < FILE_BLOCKS then 0 else Raw(v, n, off) {
      assert Raw(w, n, off) == if keep <= off / BLOCK < FILE_BLOCKS then 0 else Raw(v, n, off);
      assert SlotOf(n, off / BLOCK) != s;
    }
    forall j | keep <= j < FILE_BLOCKS ensures FileBlock(x.nodes, x.data, n, j) == 0 {
      assert SlotOf(n, j) != s && FileBlock(w.nodes, w.data, n, j) == 0;
      assert Ptr(x.nodes, x.data, SlotOf(n, j)) == Ptr(w.nodes, w.data, SlotOf(n, j));
    }
  }

  lemma NoFileBlock(nodes: seq<Inode>, data: seq<seq<Byte>>, n: nat, index: nat)
    requires TablesOk(nodes, data) && 1 <= n <= |nodes| && DIRECT <= index < FILE_BLOCKS && nodes[n - 1].ptr[INDIRECT_SLOT] == 0
    ensures FileBlock(nodes, data, n, index) == 0
  {
  }

  lemma SlotPtr(nodes: seq<Inode>, data: seq<seq<Byte>>, n: nat, index: nat)
    requires TablesOk(nodes, data) && 1 <= n <= |nodes| && index < FILE_BLOCKS
    ensures Ptr(nodes, data, SlotOf(n, index)) == FileBlock(nodes, data, n, index)
  {
  }

  /** The file is exactly `bytes`, and nothing but zeros is stored past its end. */
  ghost predicate Exactly(v: Vol, n: nat, bytes: seq<Byte>)
    requires v.Shape() && 1 <= n <= |v.nodes|
  {
    && v.nodes[n - 1].size == |bytes| <= MAX_FILE
    && forall off: nat :: off < MAX_FILE ==> Raw(v, n, off) == if off < |bytes| then bytes[off] else 0
  }

  lemma ExactContents(v: Vol, n: nat, bytes: seq<Byte>)
    requires v.Shape() && 1 <= n <= |v.nodes| && Exactly(v, n, bytes)
    ensures Contents(v, n) == bytes
  {
    hide Raw, TablesOk;
  }

  /** Truncating, writing from the start and clearing the tail of the last block. */
  lemma Rewritten(v0: Vol, v1: Vol, v2: Vol, v3: Vol, n: nat, bytes: seq<Byte>)
    requires |bytes| <= MAX_FILE && v0.Shape() && v1.Shape() && v2.Shape() && v3.Shape()
    requires 1 <= n <= |v0.nodes| == |v1.nodes| == |v2.nodes| == |v3.nodes|
    requires Wiped(v0, v1, n, (|bytes| + BLOCK - 1) / BLOCK, FILE_BLOCKS) && Spliced(v1, v2, n, 0, bytes)
    requires if |bytes| % BLOCK == 0 then v3 == v2 else Spliced(v2, v3, n, |bytes|, Zeros(BLOCK - |bytes| % BLOCK))
    ensures forall off: nat :: off < MAX_FILE ==> Raw(v3, n, off) == if off < |bytes| then bytes[off] else 0
  {
    hide Raw, TablesOk, GroupSize, Zeros;
    forall off: nat | off < MAX_FILE ensures Raw(v3, n, off) == if off < |bytes| then bytes[off] else 0 {
      assert Raw(v1, n, off) == if (|bytes| + BLOCK - 1) / BLOCK <= off / BLOCK < FILE_BLOCKS then 0 else Raw(v0, n, off);
      assert Raw(v2, n, off) == if off < |bytes| then bytes[off] else Raw(v1, n, off);
    }
  }

  lemma ExactSized(v: Vol, n: nat, bytes: seq<Byte>)
    requires 1 <= n <= |v.nodes| && v.Shape() && Sized(v, n, |bytes|).Shape() && SameRaw(v, Sized(v, n, |bytes|), n) && |bytes| <= MAX_FILE
    requires forall off: nat :: off < MAX_FILE ==> Raw(v, n, off) == if off < |bytes| then bytes[off] else 0
    ensures Exactly(Sized(v, n, |bytes|), n, bytes)
  {
    hide Raw, TablesOk;
    var w := Sized(v, n, |bytes|);
    forall off: nat | off < MAX_FILE ensures Raw(w, n, off) == if off < |bytes| then bytes[off] else 0 {
      assert Raw(w, n, off) == Raw(v, n, off);
    }
  }

  /** Appending at the end of a file extends its contents. */
  lemma Appended(v: Vol, w: Vol, n: nat, bytes: seq<Byte>)
    requires v.Shape() && w.Shape() && 1 <= n <= |v.nodes| == |w.nodes|
    requires v.nodes[n - 1].size + |bytes| <= MAX_FILE && Spliced(v, w, n, v.nodes[n - 1].size, bytes)
    requires w.nodes[n - 1].size == v.nodes[n - 1].size + |bytes|
    ensures Contents(w, n) == Contents(v, n) + bytes
  {
    hide Raw, TablesOk;
  }

  lemma BlockSize(nodes: seq<Inode>, data: seq<seq<Byte>>, b: nat)
    requires TablesOk(nodes, data) && b < |data|
    ensures |data[b]| == BLOCK
  {
  }

  /** The part of one block that a read copies is that part of the contents. */
  lemma ChunkAt(v: Vol, n: nat, start: nat, size: nat, done: nat, chunk: nat, piece: seq<Byte>)
    requires v.Shape() && 1 <= n <= |v.nodes| && start + size <= v.nodes[n - 1].size <= MAX_FILE && done + chunk <= size
    requires 0 < chunk <= BLOCK - (start + done) % BLOCK
    requires var b := FileBlock(v.nodes, v.data, n, (start + done) / BLOCK);
      b < |v.data| && |v.data[b]| == BLOCK &&
      piece == if b != 0 then v.data[b][(start + done) % BLOCK..(start + done) % BLOCK + chunk] else Zeros(chunk)
    ensures Contents(v, n)[start..start + size][done..done + chunk] == piece
  {
    hide FileBlock, TablesOk, Zeros, GroupSize;
    var offset := start + done;
    forall i | 0 <= i < chunk ensures Contents(v, n)[offset + i] == piece[i] {
      assert (offset + i) / BLOCK == offset / BLOCK && (offset + i) % BLOCK == offset % BLOCK + i;
    }
  }

  /** What finish() restores: everything begin() saw, with the allocation hints as they now are. */
  function Rolled(v: Vol, blockHint: nat, inodeHint: nat): Vol {
    v.(blocks := v.blocks.(hint := blockHint), inodes := v.inodes.(hint := inodeHint))
  }

  lemma HintsInRange(v: Vol)
    requires v.Ok({})
    ensures v.blocks.hint < |v.blocks.bits| == |v.groups| && v.inodes.hint < |v.inodes.bits| == |v.groups|
  {
  }

  lemma HintsFree(geo: Geometry, p: Pool, q: Pool)
    requires geo.perGroup > 0 && geo.inodesPerGroup > 0 && q == p.(hint := q.hint)
    ensures forall b: nat :: b > 0 ==> BlockUsed(geo, q, b) == BlockUsed(geo, p, b)
    ensures forall n: nat :: InodeUsed(geo, q, n) == InodeUsed(geo, p, n)
  {
  }

  lemma RolledPools(v: Vol, w: Vol)
    requires v.Shape() && v.PoolsOk() && w == v.(blocks := v.blocks.(hint := w.blocks.hint), inodes := v.inodes.(hint := w.inodes.hint))
    requires w.blocks.hint < |v.blocks.bits| && w.inodes.hint < |v.inodes.bits|
    ensures w.Shape() && w.PoolsOk()
  {
    hide DataBlock, TablesOk;
  }

  lemma RolledOwned(v: Vol, w: Vol)
    requires v.Shape() && w.Shape() && v.Owned({}) && v.Counted()
    requires w == v.(blocks := v.blocks.(hint := w.blocks.hint), inodes := v.inodes.(hint := w.inodes.hint))
    ensures w.Owned({}) && w.Counted()
  {
    hide DataBlock, TablesOk, Ptr, BlockUsed, InodeUsed, GroupSize;
    HintsFree(v.geo, v.blocks, w.blocks);
    HintsFree(v.geo, v.inodes, w.inodes);
    DataBlocksPositive(v);
  }

  lemma DataBlocksPositive(v: Vol)
    requires v.Shape()
    ensures forall b: nat :: DataBlock(v.geo, v.groups, b) ==> b > 0
  {
  }

  /** Hints affect no invariant and no contents. */
  lemma RolledOk(v: Vol, blockHint: nat, inodeHint: nat, n: nat)
    requires v.Ok({}) && blockHint < |v.blocks.bits| && inodeHint < |v.inodes.bits|
    ensures Rolled(v, blockHint, inodeHint).Ok({})
    ensures inodeHint == v.inodes.hint ==> Others(v, Rolled(v, blockHint, inodeHint), n)
  {
    hide Ptr, DataBlock, TablesOk, GroupSize, BlockUsed, InodeUsed, Vol.Owned, Vol.PoolsOk, Vol.Counted, Pool.Ok;
    var w := Rolled(v, blockHint, inodeHint);
    RolledPools(v, w);
    RolledOwned(v, w);
  }

  /** The first `done` bytes wanted are in the buffer, whose rest is as it was. */
  ghost predicate Copied(before: seq<Byte>, now: seq<Byte>, wanted: seq<Byte>, done: nat) {
    done <= |wanted| <= |before| && now == wanted[..done] + before[done..]
  }

  lemma NoneCopied(before: seq<Byte>, wanted: seq<Byte>)
    requires |wanted| <= |before|
    ensures Copied(before, before, wanted, 0)
  {
  }

  lemma MoreCopied(before: seq<Byte>, now: seq<Byte>, wanted: seq<Byte>, done: nat, piece: seq<Byte>)
    requires Copied(before, now, wanted, done) && done + |piece| <= |wanted| && wanted[done..done + |piece|] == piece
    ensures |now| == |before| && Copied(before, Splice(now, done, piece), wanted, done + |piece|)
  {
  }

  lemma AllCopied(before: seq<Byte>, now: seq<Byte>, wanted: seq<Byte>)
    requires Copied(before, now, wanted, |wanted|)
    ensures |now| == |before| && now[..|wanted|] == wanted && now[|wanted|..] == before[|wanted|..]
  {
  }
}
