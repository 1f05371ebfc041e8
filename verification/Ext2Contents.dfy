/** fs.c: what the bytes of a file are, and what changing pointers or blocks does to them. */
module Ext2Contents {
  import opened Bytes
  import opened Ext2Pools
  import opened Ext2Layout

  /** Byte `off` of inode `n`, up to the largest size a file can have; a hole reads as zero. */
  function Raw(v: Vol, n: nat, off: nat): Byte
    requires TablesOk(v.nodes, v.data) && 1 <= n <= |v.nodes| && off < MAX_FILE
  {
    var b := FileBlock(v.nodes, v.data, n, off / BLOCK);
    if 0 < b < |v.data| then v.data[b][off % BLOCK] else 0
  }

  /** The contents of a file as a byte sequence. */
  function Contents(v: Vol, n: nat): (c: seq<Byte>)
    requires TablesOk(v.nodes, v.data) && 1 <= n <= |v.nodes| && v.nodes[n - 1].size <= MAX_FILE
    ensures |c| == v.nodes[n - 1].size
  {
    seq(v.nodes[n - 1].size, off requires 0 <= off < v.nodes[n - 1].size => Raw(v, n, off))
  }

  /** The bytes of inode `n` are the same in both. */
  ghost predicate SameRaw(v: Vol, w: Vol, n: nat)
    requires v.Shape() && w.Shape() && 1 <= n <= |v.nodes| == |w.nodes|
  {
    forall off: nat :: off < MAX_FILE ==> Raw(w, n, off) == Raw(v, n, off)
  }

  /** `w` has `bytes` from `offset` in inode `n`, and the bytes of `v` elsewhere. */
  ghost predicate Spliced(v: Vol, w: Vol, n: nat, offset: nat, bytes: seq<Byte>)
    requires v.Shape() && w.Shape() && 1 <= n <= |v.nodes| == |w.nodes|
  {
    forall off: nat :: off < MAX_FILE ==>
      Raw(w, n, off) == if offset <= off < offset + |bytes| then bytes[off - offset] else Raw(v, n, off)
  }

  predicate SameMeta(a: Inode, b: Inode) {
    a.mode == b.mode && a.links == b.links && a.deleted == b.deleted
  }

  /** The pointers of inode `n` are the same in both. */
  ghost predicate SamePtrs(v: Vol, w: Vol, n: nat)
    requires v.Shape() && w.Shape() && 1 <= n <= |v.nodes| == |w.nodes|
  {
    forall k :: 0 <= k < SLOTS ==> Ptr(w.nodes, w.data, Slot(n, k)) == Ptr(v.nodes, v.data, Slot(n, k))
  }

  /** Everything in a volume except inode `n` and which blocks are free. */
  ghost predicate Others(v: Vol, w: Vol, n: nat)
    requires v.Shape() && w.Shape()
  {
    && SameFrame(v, w)
    && w.blocks.free + |w.owner| == v.blocks.free + |v.owner|
    && forall m: nat :: v.Live(m) && m != n ==> Same(v, w, m) && SamePtrs(v, w, m)
  }

  /** Inode `n` itself, but for where its blocks are. */
  ghost predicate Same(v: Vol, w: Vol, n: nat)
    requires v.Shape() && w.Shape() && 1 <= n <= |v.nodes| == |w.nodes|
  {
    SameMeta(v.nodes[n - 1], w.nodes[n - 1]) && v.nodes[n - 1].size == w.nodes[n - 1].size && SameRaw(v, w, n)
  }

  /** Nothing changed but that blocks were found for holes of inode `n`. */
  ghost predicate Kept(v: Vol, w: Vol, n: nat)
    requires v.Shape() && w.Shape() && 1 <= n <= |v.nodes| == |w.nodes|
  {
    Others(v, w, n) && Same(v, w, n)
  }

  lemma RawChain(v: Vol, w: Vol, x: Vol, n: nat)
    requires v.Shape() && w.Shape() && x.Shape() && 1 <= n <= |v.nodes| == |w.nodes| == |x.nodes|
    requires SameRaw(v, w, n) && SameRaw(w, x, n)
    ensures SameRaw(v, x, n)
  {
    hide Raw, TablesOk, GroupSize;
    forall off: nat | off < MAX_FILE ensures Raw(x, n, off) == Raw(v, n, off) {
      assert Raw(w, n, off) == Raw(v, n, off);
    }
  }

  lemma PtrsChain(v: Vol, w: Vol, x: Vol, n: nat)
    requires v.Shape() && w.Shape() && x.Shape() && 1 <= n <= |v.nodes| == |w.nodes| == |x.nodes|
    requires SamePtrs(v, w, n) && SamePtrs(w, x, n)
    ensures SamePtrs(v, x, n)
  {
    hide Ptr, TablesOk, GroupSize;
    forall k | 0 <= k < SLOTS ensures Ptr(x.nodes, x.data, Slot(n, k)) == Ptr(v.nodes, v.data, Slot(n, k)) {
      assert Ptr(w.nodes, w.data, Slot(n, k)) == Ptr(v.nodes, v.data, Slot(n, k));
    }
  }

  lemma OthersChain(v: Vol, w: Vol, x: Vol, n: nat)
    requires v.Shape() && w.Shape() && x.Shape() && Others(v, w, n) && Others(w, x, n)
    ensures Others(v, x, n)
  {
    hide Raw, Ptr, TablesOk, InodeUsed, SameRaw, SamePtrs, GroupSize;
    forall m: nat | v.Live(m) && m != n ensures Same(v, x, m) && SamePtrs(v, x, m) {
      assert w.Live(m) && Same(v, w, m) && Same(w, x, m);
      RawChain(v, w, x, m);
      PtrsChain(v, w, x, m);
    }
  }

  lemma KeptChain(v: Vol, w: Vol, x: Vol, n: nat)
    requires v.Shape() && w.Shape() && x.Shape() && 1 <= n <= |v.nodes| == |w.nodes| == |x.nodes|
    requires Kept(v, w, n) && Kept(w, x, n)
    ensures Kept(v, x, n)
  {
    hide Raw, Ptr, TablesOk, InodeUsed, SameRaw, SamePtrs, GroupSize, Others;
    OthersChain(v, w, x, n);
    RawChain(v, w, x, n);
  }

  /** A block of a file is owned by its slot, which is never the indirect slot. */
  lemma FileOwned(v: Vol, loose: set<nat>, n: nat, index: nat)
    requires v.Ok(loose) && v.Live(n) && index < FILE_BLOCKS && FileBlock(v.nodes, v.data, n, index) != 0
    ensures var b := FileBlock(v.nodes, v.data, n, index);
      b in v.owner && v.owner[b] == SlotOf(n, index) && v.owner[b].k != INDIRECT_SLOT && 0 < b < |v.data|
  {
    hide Ptr, InodeUsed, TablesOk, DataBlock, BlockUsed, Vol.PoolsOk, Vol.Counted;
    OwnsIt(v, loose, SlotOf(n, index));
  }

  /** The indirect block is owned by its slot. */
  lemma IndirectOwned(v: Vol, loose: set<nat>, n: nat)
    requires v.Ok(loose) && v.Live(n) && v.nodes[n - 1].ptr[INDIRECT_SLOT] != 0
    ensures var b := v.nodes[n - 1].ptr[INDIRECT_SLOT];
      b in v.owner && v.owner[b] == Slot(n, INDIRECT_SLOT) && 0 < b < |v.data|
  {
    assert Ptr(v.nodes, v.data, Slot(n, INDIRECT_SLOT)) == v.nodes[n - 1].ptr[INDIRECT_SLOT];
    hide Ptr, InodeUsed, TablesOk, DataBlock, BlockUsed, Vol.PoolsOk, Vol.Counted;
    OwnsIt(v, loose, Slot(n, INDIRECT_SLOT));
  }

  /** When a slot is repointed, the blocks other slots name keep their bytes. */
  lemma RepointedBlock(v: Vol, loose: set<nat>, w: Vol, s: Slot, b: nat, n: nat, index: nat)
    requires v.Ok(loose) && v.Live(s.ino) && s.k < SLOTS && b < |v.data| && v.Live(n) && index < FILE_BLOCKS
    requires s.k > INDIRECT_SLOT ==> v.nodes[s.ino - 1].ptr[INDIRECT_SLOT] != 0
    requires w.Shape() && SameFrame(v, w) && w.data == PointData(v.nodes, v.data, s, b)
    requires FileBlock(v.nodes, v.data, n, index) != 0
    ensures 0 < FileBlock(v.nodes, v.data, n, index) < |v.data|
    ensures w.data[FileBlock(v.nodes, v.data, n, index)] == v.data[FileBlock(v.nodes, v.data, n, index)]
  {
    hide Ptr, InodeUsed, DataBlock, BlockUsed, Vol.PoolsOk, Vol.Counted, Vol.Owned, Store32;
    FileOwned(v, loose, n, index);
    if s.k > INDIRECT_SLOT {
      IndirectOwned(v, loose, s.ino);
    }
    PointedData(v.nodes, v.data, s, b, FileBlock(v.nodes, v.data, n, index));
  }

  /** Attaching a zeroed block changes no byte of any file. */
  lemma AttachedRaw(v: Vol, s: Slot, b: nat, n: nat)
    requires v.Ok({b}) && v.Live(s.ino) && s.k < SLOTS && Ptr(v.nodes, v.data, s) == 0 && 0 < b < |v.data|
    requires s.k > INDIRECT_SLOT ==> v.nodes[s.ino - 1].ptr[INDIRECT_SLOT] != 0
    requires Zero(v.data[b]) && v.Live(n)
    requires v.Attached(s, b).Shape() && Repointed(v, v.Attached(s, b), s, b)
    ensures SameRaw(v, v.Attached(s, b), n)
  {
    hide Ptr, InodeUsed, DataBlock, BlockUsed, Vol.PoolsOk, Vol.Counted, PointNodes, PointData, Store32;
    var w := v.Attached(s, b);
    assert b !in v.owner;
    if s.k > INDIRECT_SLOT {
      IndirectOwned(v, {b}, s.ino);
    }
    PointedData(v.nodes, v.data, s, b, b);
    hide Vol.Owned, Vol.Shape;
    forall off: nat | off < MAX_FILE ensures Raw(w, n, off) == Raw(v, n, off) {
      var index := off / BLOCK;
      assert FileBlock(w.nodes, w.data, n, index) == if SlotOf(n, index) == s then b else FileBlock(v.nodes, v.data, n, index);
      if FileBlock(v.nodes, v.data, n, index) != 0 {
        RepointedBlock(v, {b}, w, s, b, n, index);
      }
    }
  }

  /** Detaching a block makes its part of the file zero and changes no other byte. */
  lemma DetachedRaw(v: Vol, s: Slot, b: nat, n: nat)
    requires v.Ok({}) && v.Live(s.ino) && s.k < SLOTS && v.Live(n) && v.Holds(s, b)
    requires v.Detached(s, b).Shape() && Repointed(v, v.Detached(s, b), s, 0)
    ensures forall off: nat :: off < MAX_FILE ==>
      Raw(v.Detached(s, b), n, off) == if SlotOf(n, off / BLOCK) == s then 0 else Raw(v, n, off)
  {
    hide Ptr, InodeUsed, DataBlock, BlockUsed, Vol.PoolsOk, Vol.Counted, PointNodes, PointData, Store32, Pool.Has, GroupOf, IndexOf;
    var w := v.Detached(s, b);
    hide Vol.Owned;
    forall off: nat | off < MAX_FILE ensures Raw(w, n, off) == if SlotOf(n, off / BLOCK) == s then 0 else Raw(v, n, off) {
      var index := off / BLOCK;
      assert FileBlock(w.nodes, w.data, n, index) == if SlotOf(n, index) == s then 0 else FileBlock(v.nodes, v.data, n, index);
      if FileBlock(v.nodes, v.data, n, index) != 0 {
        RepointedBlock(v, {}, w, s, 0, n, index);
      }
    }
  }

  /** Overwriting a block that no indirect slot owns moves no block of any file. */
  lemma StoredBlocks(v: Vol, loose: set<nat>, b: nat, bytes: seq<Byte>, n: nat, index: nat)
    requires v.Ok(loose) && b < |v.data| && |bytes| == BLOCK && v.Live(n) && index < FILE_BLOCKS
    requires b in v.owner ==> v.owner[b].k != INDIRECT_SLOT
    ensures TablesOk(v.nodes, v.data[b := bytes])
    ensures FileBlock(v.nodes, v.data[b := bytes], n, index) == FileBlock(v.nodes, v.data, n, index)
  {
    hide Ptr, InodeUsed, DataBlock, BlockUsed, Vol.PoolsOk, Vol.Counted, Vol.Owned;
    StoredPtr(v, loose, b, bytes, SlotOf(n, index));
  }

  /** Overwriting a block that no file owns changes no byte of any file. */
  lemma UnownedRaw(v: Vol, loose: set<nat>, b: nat, bytes: seq<Byte>, n: nat)
    requires v.Ok(loose) && b < |v.data| && |bytes| == BLOCK && v.Live(n) && b !in v.owner
    requires v.(data := v.data[b := bytes]).Shape()
    ensures SameRaw(v, v.(data := v.data[b := bytes]), n)
  {
    hide Ptr, InodeUsed, DataBlock, BlockUsed, Vol.PoolsOk, Vol.Counted, Vol.Owned, FileBlock;
    var w := v.(data := v.data[b := bytes]);
    forall off: nat | off < MAX_FILE ensures Raw(w, n, off) == Raw(v, n, off) {
      StoredBlocks(v, loose, b, bytes, n, off / BLOCK);
      if FileBlock(v.nodes, v.data, n, off / BLOCK) != 0 {
        FileOwned(v, loose, n, off / BLOCK);
      }
    }
  }

  /** Overwriting part of a file's block changes those bytes of that file only. */
  lemma SplicedRaw(v: Vol, n: nat, index: nat, within: nat, chunk: seq<Byte>, m: nat)
    requires v.Ok({}) && v.Live(n) && v.Live(m) && index < FILE_BLOCKS && FileBlock(v.nodes, v.data, n, index) != 0
    requires FileBlock(v.nodes, v.data, n, index) < |v.data| && within + |chunk| <= BLOCK
    requires var b := FileBlock(v.nodes, v.data, n, index); v.(data := v.data[b := Splice(v.data[b], within, chunk)]).Shape()
    ensures var b := FileBlock(v.nodes, v.data, n, index); var w := v.(data := v.data[b := Splice(v.data[b], within, chunk)]);
      Spliced(v, w, m, BLOCK * index + within, if m == n then chunk else [])
  {
    hide Ptr, InodeUsed, DataBlock, BlockUsed, Vol.PoolsOk, Vol.Counted, Vol.Owned, FileBlock, Splice;
    var b := FileBlock(v.nodes, v.data, n, index);
    var bytes := Splice(v.data[b], within, chunk);
    var w := v.(data := v.data[b := bytes]);
    FileOwned(v, {}, n, index);
    forall off: nat | off < MAX_FILE
      ensures Raw(w, m, off) ==
        if m == n && BLOCK * index + within <= off < BLOCK * index + within + |chunk| then chunk[off - (BLOCK * index + within)]
        else Raw(v, m, off)
    {
      StoredBlocks(v, {}, b, bytes, m, off / BLOCK);
      if FileBlock(v.nodes, v.data, m, off / BLOCK) != 0 {
        FileOwned(v, {}, m, off / BLOCK);
      }
    }
  }
}
