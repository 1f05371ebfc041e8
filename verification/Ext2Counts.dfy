/** fs.c: how many blocks an inode has, and how many a file of a given size needs. */
module Ext2Counts {
  import opened Bytes
  import opened Ext2Layout
  import opened Ext2Contents

  /** Nonzero pointers among the first `k` slots of an inode. */
  function CountPtrs(v: Vol, n: nat, k: nat): nat
    requires TablesOk(v.nodes, v.data) && 1 <= n <= |v.nodes| && k <= SLOTS
  {
    if k == 0 then 0 else CountPtrs(v, n, k - 1) + if Ptr(v.nodes, v.data, Slot(n, k - 1)) != 0 then 1 else 0
  }

  ghost function OwnedBelow(v: Vol, n: nat, k: nat): set<nat> {
    set b | b in v.owner && v.owner[b].ino == n && v.owner[b].k < k
  }

  lemma {:induction false} CountOwned(v: Vol, n: nat, k: nat)
    requires v.Ok({}) && v.Live(n) && k <= SLOTS
    ensures |OwnedBelow(v, n, k)| == CountPtrs(v, n, k)
  {
    hide Ptr, InodeUsed, TablesOk, DataBlock, BlockUsed, Vol.PoolsOk, Vol.Counted;
    if k > 0 {
      CountOwned(v, n, k - 1);
      var s := Slot(n, k - 1);
      var b := Ptr(v.nodes, v.data, s);
      if b != 0 {
        OwnsIt(v, {}, s);
        assert OwnedBelow(v, n, k) == OwnedBelow(v, n, k - 1) + {b};
      } else {
        NoOwner(v, s);
        assert OwnedBelow(v, n, k) == OwnedBelow(v, n, k - 1);
      }
    } else {
      assert OwnedBelow(v, n, 0) == {};
    }
  }

  /** An empty slot owns nothing. */
  lemma NoOwner(v: Vol, s: Slot)
    requires v.Ok({}) && v.Live(s.ino) && s.k < SLOTS && Ptr(v.nodes, v.data, s) == 0
    ensures forall b :: b in v.owner ==> v.owner[b] != s
  {
    hide Ptr, InodeUsed, TablesOk, BlockUsed, Vol.PoolsOk, Vol.Counted;
  }

  /** An inode's blocks and the free ones make a fixed sum while only that inode is worked on. */
  lemma FreeAndOwned(v: Vol, w: Vol, n: nat)
    requires v.Ok({}) && w.Ok({}) && Others(v, w, n)
    ensures w.blocks.free + |OwnedBy(w.owner, n)| == v.blocks.free + |OwnedBy(v.owner, n)|
  {
    ElseSame(v, w, n);
    ElseSameBack(v, w, n);
    assert OwnedElse(v, n) == OwnedElse(w, n);
    SplitOwned(v, n);
    SplitOwned(w, n);
    hide Vol.Ok, Same, SamePtrs;
  }

  ghost function OwnedElse(v: Vol, n: nat): set<nat> {
    set b | b in v.owner && v.owner[b].ino != n
  }

  lemma SplitOwned(v: Vol, n: nat)
    ensures |v.owner| == |OwnedElse(v, n)| + |OwnedBy(v.owner, n)|
  {
    assert OwnedElse(v, n) !! OwnedBy(v.owner, n);
    assert v.owner.Keys == OwnedElse(v, n) + OwnedBy(v.owner, n);
  }

  /** What other inodes own they keep. */
  lemma ElseSame(v: Vol, w: Vol, n: nat)
    requires v.Ok({}) && w.Ok({}) && Others(v, w, n)
    ensures OwnedElse(v, n) <= OwnedElse(w, n)
  {
    hide Ptr, InodeUsed, TablesOk, DataBlock, BlockUsed, Vol.PoolsOk, Vol.Counted, Same;
    forall b | b in OwnedElse(v, n) ensures b in OwnedElse(w, n) {
      var s := v.owner[b];
      DataBlockRange(v.geo, v.groups, b);
      assert SamePtrs(v, w, s.ino);
      assert Slot(s.ino, s.k) == s && Ptr(w.nodes, w.data, s) == b;
      OwnsIt(w, {}, s);
    }
  }

  lemma ElseSameBack(v: Vol, w: Vol, n: nat)
    requires v.Ok({}) && w.Ok({}) && Others(v, w, n)
    ensures OwnedElse(w, n) <= OwnedElse(v, n)
  {
    hide Ptr, InodeUsed, TablesOk, DataBlock, BlockUsed, Vol.PoolsOk, Vol.Counted, Same;
    forall b | b in OwnedElse(w, n) ensures b in OwnedElse(v, n) {
      var s := w.owner[b];
      DataBlockRange(w.geo, w.groups, b);
      assert v.Live(s.ino) && SamePtrs(v, w, s.ino);
      assert Slot(s.ino, s.k) == s && Ptr(v.nodes, v.data, s) == b;
      OwnsIt(v, {}, s);
    }
  }

  /** Blocks a file of this size takes, with its indirect block. */
  function BlocksFor(size: nat): nat {
    var k := (size + BLOCK - 1) / BLOCK;
    k + if k > DIRECT then 1 else 0
  }

  /** Every block of a file that lies before `keep` is there... */
  ghost predicate HasAll(v: Vol, n: nat, keep: nat)
    requires TablesOk(v.nodes, v.data) && 1 <= n <= |v.nodes|
  {
    forall j :: 0 <= j < keep && j < FILE_BLOCKS ==> FileBlock(v.nodes, v.data, n, j) != 0
  }

  /** ... and nothing is there from `keep` on. */
  ghost predicate HasNone(v: Vol, n: nat, keep: nat)
    requires TablesOk(v.nodes, v.data) && 1 <= n <= |v.nodes|
  {
    && (forall j :: keep <= j < FILE_BLOCKS ==> FileBlock(v.nodes, v.data, n, j) == 0)
    && (keep <= DIRECT ==> v.nodes[n - 1].ptr[INDIRECT_SLOT] == 0)
  }

  lemma {:induction false} CountUpTo(v: Vol, n: nat, k: nat, bound: nat)
    requires TablesOk(v.nodes, v.data) && 1 <= n <= |v.nodes| && k <= SLOTS
    requires forall j :: bound <= j < k ==> Ptr(v.nodes, v.data, Slot(n, j)) == 0
    ensures CountPtrs(v, n, k) <= k && CountPtrs(v, n, k) <= bound
    ensures CountPtrs(v, n, k) == bound ==> forall j :: 0 <= j < bound && j < k ==> Ptr(v.nodes, v.data, Slot(n, j)) != 0
    ensures k >= bound && (forall j :: 0 <= j < bound ==> Ptr(v.nodes, v.data, Slot(n, j)) != 0) ==> CountPtrs(v, n, k) == bound
  {
    hide Ptr, TablesOk;
    if k > bound {
      CountUpTo(v, n, k - 1, bound);
    } else if k > 0 {
      CountUpTo(v, n, k - 1, k - 1);
    }
  }

  /** In terms of slots: those below `BlocksFor(size)`. */
  lemma SlotsFor(v: Vol, n: nat, size: nat)
    requires TablesOk(v.nodes, v.data) && 1 <= n <= |v.nodes| && size <= MAX_FILE && HasNone(v, n, (size + BLOCK - 1) / BLOCK)
    ensures BlocksFor(size) <= SLOTS && forall j :: BlocksFor(size) <= j < SLOTS ==> Ptr(v.nodes, v.data, Slot(n, j)) == 0
    ensures HasAll(v, n, (size + BLOCK - 1) / BLOCK) <==> forall j :: 0 <= j < BlocksFor(size) ==> Ptr(v.nodes, v.data, Slot(n, j)) != 0
  {
    hide Load32;
    var keep := (size + BLOCK - 1) / BLOCK;
    forall j | 0 <= j < SLOTS && j != INDIRECT_SLOT
      ensures var i := if j < DIRECT then j else j - 1; Ptr(v.nodes, v.data, Slot(n, j)) == FileBlock(v.nodes, v.data, n, i)
    {
    }
    if keep > DIRECT && FileBlock(v.nodes, v.data, n, DIRECT) != 0 {
      assert Ptr(v.nodes, v.data, Slot(n, INDIRECT_SLOT)) != 0;
    }
    hide Ptr, TablesOk;
    forall i | 0 <= i < keep && i < FILE_BLOCKS
      ensures FileBlock(v.nodes, v.data, n, i) == Ptr(v.nodes, v.data, Slot(n, if i < DIRECT then i else i + 1))
    {
    }
  }

  /** A file rewritten to `size` bytes has found all its blocks exactly when the free ones and
      its own were enough. */
  lemma Capacity(v: Vol, w: Vol, n: nat, size: nat)
    requires v.Ok({}) && w.Ok({}) && Others(v, w, n) && w.Live(n) && size <= MAX_FILE
    requires HasNone(w, n, (size + BLOCK - 1) / BLOCK)
    requires HasAll(w, n, (size + BLOCK - 1) / BLOCK) || w.blocks.free == 0
    ensures HasAll(w, n, (size + BLOCK - 1) / BLOCK) <==> v.blocks.free + |OwnedBy(v.owner, n)| >= BlocksFor(size)
  {
    hide Ptr, TablesOk, GroupSize, HasAll, HasNone, InodeUsed, Same, SamePtrs, CountPtrs;
    FreeAndOwned(v, w, n);
    CountOwned(w, n, SLOTS);
    AllBelow(w, n);
    SlotsFor(w, n, size);
    CountUpTo(w, n, SLOTS, BlocksFor(size));
  }

  lemma AllBelow(v: Vol, n: nat)
    requires v.Ok({})
    ensures OwnedBelow(v, n, SLOTS) == OwnedBy(v.owner, n)
  {
    hide Ptr, InodeUsed, TablesOk, DataBlock, BlockUsed, Vol.PoolsOk, Vol.Counted;
  }

  // ------------------------------------------------------------ writing block after block

  /** The blocks under `count` bytes from `offset` on are there. */
  ghost predicate HasRange(v: Vol, n: nat, offset: nat, count: nat)
    requires v.Shape() && 1 <= n <= |v.nodes|
  {
    count > 0 ==> forall j :: offset / BLOCK <= j < FILE_BLOCKS && BLOCK * j < offset + count ==> FileBlock(v.nodes, v.data, n, j) != 0
  }

  /** From block `keep` on, nothing is different. */
  ghost predicate SameFrom(v: Vol, w: Vol, n: nat, keep: nat)
    requires v.Shape() && w.Shape() && 1 <= n <= |v.nodes| == |w.nodes|
  {
    && (forall j :: keep <= j < FILE_BLOCKS ==> FileBlock(w.nodes, w.data, n, j) == FileBlock(v.nodes, v.data, n, j))
    && (keep <= DIRECT ==> Ptr(w.nodes, w.data, Slot(n, INDIRECT_SLOT)) == Ptr(v.nodes, v.data, Slot(n, INDIRECT_SLOT)))
  }

  /** Only block `index` may be another, and no block is lost. */
  ghost predicate SameBut(v: Vol, w: Vol, n: nat, index: nat)
    requires v.Shape() && w.Shape() && 1 <= n <= |v.nodes| == |w.nodes|
  {
    && (forall j :: 0 <= j < FILE_BLOCKS && j != index ==> FileBlock(w.nodes, w.data, n, j) == FileBlock(v.nodes, v.data, n, j))
    && (index < DIRECT ==> Ptr(w.nodes, w.data, Slot(n, INDIRECT_SLOT)) == Ptr(v.nodes, v.data, Slot(n, INDIRECT_SLOT)))
  }

  lemma RepointedFile(v: Vol, w: Vol, n: nat, index: nat, b: nat)
    requires v.Shape() && w.Shape() && v.geo == w.geo && 1 <= n <= |v.nodes| == |w.nodes| && v.Live(n) && index < FILE_BLOCKS
    requires Repointed(v, w, SlotOf(n, index), b)
    ensures SameBut(v, w, n, index) && FileBlock(w.nodes, w.data, n, index) == b
  {
    hide Ptr, TablesOk, GroupSize, InodeUsed;
    assert Slot(n, INDIRECT_SLOT) != SlotOf(n, index);
    forall j | 0 <= j < FILE_BLOCKS && j != index ensures FileBlock(w.nodes, w.data, n, j) == FileBlock(v.nodes, v.data, n, j) {
      assert SlotOf(n, j) != SlotOf(n, index);
    }
  }

  lemma RangeNone(v: Vol, n: nat, offset: nat, count: nat)
    requires v.Shape() && 1 <= n <= |v.nodes|
    ensures HasRange(v, n, offset, 0) && SameFrom(v, v, n, (offset + count + BLOCK - 1) / BLOCK)
  {
    hide TablesOk, Ptr;
  }

  lemma SameFromBut(v0: Vol, v: Vol, w: Vol, n: nat, keep: nat, index: nat)
    requires v0.Shape() && v.Shape() && w.Shape() && 1 <= n <= |v0.nodes| == |v.nodes| == |w.nodes|
    requires SameFrom(v0, v, n, keep) && SameBut(v, w, n, index) && index < keep
    ensures SameFrom(v0, w, n, keep)
  {
    hide TablesOk, Ptr, FileBlock;
  }

  /** One more piece, inside one block. */
  lemma RangeMore(v: Vol, w: Vol, n: nat, offset: nat, done: nat, chunk: nat, count: nat)
    requires v.Shape() && w.Shape() && 1 <= n <= |v.nodes| == |w.nodes| && HasRange(v, n, offset, done)
    requires offset + count <= MAX_FILE && done + chunk <= count && 0 < chunk <= BLOCK - (offset + done) % BLOCK
    requires SameBut(v, w, n, (offset + done) / BLOCK)
    ensures FileBlock(w.nodes, w.data, n, (offset + done) / BLOCK) != 0 ==> HasRange(w, n, offset, done + chunk)
    ensures FileBlock(w.nodes, w.data, n, (offset + done) / BLOCK) == 0 ==> !HasRange(w, n, offset, count)
  {
    hide TablesOk, Ptr, FileBlock;
    var index := (offset + done) / BLOCK;
    if FileBlock(w.nodes, w.data, n, index) != 0 {
      forall j | offset / BLOCK <= j < FILE_BLOCKS && BLOCK * j < offset + done + chunk ensures FileBlock(w.nodes, w.data, n, j) != 0 {
        if j != index {
          assert j < index && done > 0;
        }
      }
    }
  }

  /** Storing bytes and setting the size move no block. */
  lemma SameBlocksAfter(v0: Vol, v: Vol, w: Vol, n: nat, keep: nat, offset: nat, count: nat)
    requires v0.Shape() && v.Shape() && w.Shape() && 1 <= n <= |v0.nodes| == |v.nodes| == |w.nodes|
    requires SameFrom(v0, v, n, keep) && SamePtrs(v, w, n) && HasRange(v, n, offset, count)
    ensures SameFrom(v0, w, n, keep) && HasRange(w, n, offset, count)
  {
    hide TablesOk, Ptr;
    forall j | 0 <= j < FILE_BLOCKS ensures FileBlock(w.nodes, w.data, n, j) == FileBlock(v.nodes, v.data, n, j) {
      assert SlotOf(n, j) == Slot(n, SlotOf(n, j).k);
    }
  }

  /** After truncating and writing from the start. */
  lemma NothingPast(v: Vol, w: Vol, n: nat, size: nat)
    requires v.Shape() && w.Shape() && 1 <= n <= |v.nodes| == |w.nodes| && size <= MAX_FILE
    requires SameFrom(v, w, n, (size + BLOCK - 1) / BLOCK) && HasNone(v, n, (size + BLOCK - 1) / BLOCK)
    ensures HasNone(w, n, (size + BLOCK - 1) / BLOCK)
    ensures HasAll(w, n, (size + BLOCK - 1) / BLOCK) <==> HasRange(w, n, 0, size)
  {
    assert Ptr(v.nodes, v.data, Slot(n, INDIRECT_SLOT)) == v.nodes[n - 1].ptr[INDIRECT_SLOT];
    assert Ptr(w.nodes, w.data, Slot(n, INDIRECT_SLOT)) == w.nodes[n - 1].ptr[INDIRECT_SLOT];
    hide FileBlock;
  }

  lemma LastBlock(v: Vol, n: nat, size: nat)
    requires v.Shape() && 1 <= n <= |v.nodes| && size <= MAX_FILE && HasRange(v, n, 0, size) && size % BLOCK != 0
    ensures FileBlock(v.nodes, v.data, n, size / BLOCK) != 0
  {
    hide TablesOk, FileBlock;
  }
}
