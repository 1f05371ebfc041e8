/** fs.c: inodes being born and dying, and directories as files of records. */
module Ext2Tree {
  import opened Arithmetic
  import opened Ext2Pools
  import opened Ext2Layout
  import opened Ext2Contents

  const FILE_MODE := 0x8000
  const DIR_MODE := 0x4000

  /** kind(). */
  function Kind(mode: nat): nat {
    mode / 0x1000 % 0x10 * 0x1000
  }

  /** Every live inode outside `except` is as it was, and no other has come to life. */
  ghost predicate Files(v: Vol, w: Vol, except: set<nat>)
    requires v.Shape() && w.Shape()
  {
    && v.geo == w.geo && |v.nodes| == |w.nodes|
    && w.blocks.free + |w.owner| == v.blocks.free + |v.owner|
    && forall m: nat :: m !in except ==> (v.Live(m) <==> w.Live(m)) && (v.Live(m) ==> Same(v, w, m) && SamePtrs(v, w, m))
  }

  lemma OthersFiles(v: Vol, w: Vol, n: nat)
    requires v.Shape() && w.Shape() && Others(v, w, n)
    ensures Files(v, w, {n})
  {
    hide Raw, Ptr, TablesOk, InodeUsed, SameRaw, SamePtrs, GroupSize, SameMeta;
  }

  lemma FilesChain(v: Vol, w: Vol, x: Vol, a: set<nat>, b: set<nat>)
    requires v.Shape() && w.Shape() && x.Shape() && Files(v, w, a) && Files(w, x, b)
    ensures Files(v, x, a + b)
  {
    hide Raw, Ptr, TablesOk, InodeUsed, SameRaw, SamePtrs, GroupSize;
    forall m: nat | m !in a + b
      ensures (v.Live(m) <==> x.Live(m)) && (v.Live(m) ==> Same(v, x, m) && SamePtrs(v, x, m))
    {
      if v.Live(m) {
        RawChain(v, w, x, m);
        PtrsChain(v, w, x, m);
      }
    }
  }

  // ------------------------------------------------------------ inodes

  function InodeNo(geo: Geometry, g: nat, i: nat): nat {
    g * geo.inodesPerGroup + i + 1
  }

  lemma InodePlace(geo: Geometry, g: nat, i: nat)
    requires i < geo.inodesPerGroup
    ensures var n := InodeNo(geo, g, i); (n - 1) / geo.inodesPerGroup == g && (n - 1) % geo.inodesPerGroup == i
  {
    DivModUnique(InodeNo(geo, g, i) - 1, geo.inodesPerGroup, g, i);
  }

  lemma InodeInTable(v: Vol, g: nat, i: nat)
    requires v.Shape() && v.inodes.Has(g, i)
    ensures i < v.geo.inodesPerGroup && 1 <= InodeNo(v.geo, g, i) <= |v.nodes|
  {
    hide TablesOk, GroupSize;
    var per := v.geo.inodesPerGroup;
    assert (g + 1) * per <= |v.groups| * per by {
      ProductNonNegative(|v.groups| - (g + 1), per);
    }
  }

  /** Flipping the bit of inode `n` makes no other inode live or dead. */
  lemma FlippedLive(geo: Geometry, p: Pool, q: Pool, g: nat, i: nat, value: bool, m: nat)
    requires geo.inodesPerGroup > 0 && p.Has(g, i) && i < geo.inodesPerGroup && q.bits == p.bits[g := p.bits[g][i := value]]
    ensures m == InodeNo(geo, g, i) ==> InodeUsed(geo, q, m) == value
    ensures m != InodeNo(geo, g, i) ==> InodeUsed(geo, q, m) == InodeUsed(geo, p, m)
  {
    InodePlace(geo, g, i);
    if m > 0 && (m - 1) / geo.inodesPerGroup == g && (m - 1) % geo.inodesPerGroup == i {
      assert m - 1 == (m - 1) / geo.inodesPerGroup * geo.inodesPerGroup + (m - 1) % geo.inodesPerGroup;
    }
  }

  predicate Blank(node: Inode) {
    |node.ptr| == 13 && node.sectors == 0 && forall k :: 0 <= k < 13 ==> node.ptr[k] == 0
  }

  /** The volume after the bit and the table entry of inode `n` were set. */
  function Flipped(v: Vol, p: Pool, n: nat, node: Inode): Vol
    requires 1 <= n <= |v.nodes|
  {
    v.(inodes := p, nodes := v.nodes[n - 1 := node])
  }

  lemma FlippedPtrs(v: Vol, p: Pool, n: nat, node: Inode, t: Slot)
    requires v.Shape() && 1 <= n <= |v.nodes| && Blank(node) && 1 <= t.ino <= |v.nodes| && t.k < SLOTS
    ensures TablesOk(Flipped(v, p, n, node).nodes, v.data)
    ensures Ptr(Flipped(v, p, n, node).nodes, v.data, t) == if t.ino == n then 0 else Ptr(v.nodes, v.data, t)
  {
    hide GroupSize;
  }

  ghost predicate FlipReady(v: Vol, p: Pool, g: nat, i: nat, value: bool) {
    && v.Shape() && v.inodes.Has(g, i) && v.inodes.bits[g][i] != value
    && p.bits == v.inodes.bits[g := v.inodes.bits[g][i := value]]
    && p.Ok()
    && (g == 0 ==> i >= v.geo.firstInode - 1)
  }

  lemma FlippedShape(v: Vol, p: Pool, g: nat, i: nat, node: Inode, value: bool)
    requires v.Ok({}) && FlipReady(v, p, g, i, value) && Blank(node)
    ensures 1 <= InodeNo(v.geo, g, i) <= |v.nodes|
    ensures Flipped(v, p, InodeNo(v.geo, g, i), node).Shape() && Flipped(v, p, InodeNo(v.geo, g, i), node).PoolsOk()
  {
    hide Ptr, DataBlock, Pool.Ok, Vol.Owned, Vol.Counted, GroupSize, InodeUsed;
    InodeInTable(v, g, i);
    FlippedPtrs(v, p, InodeNo(v.geo, g, i), node, Slot(1, 0));
  }

  /** An inode with no blocks can be born or die without disturbing ownership. */
  lemma FlippedOk(v: Vol, p: Pool, g: nat, i: nat, node: Inode, value: bool)
    requires v.Ok({}) && FlipReady(v, p, g, i, value) && Blank(node)
    requires v.Live(InodeNo(v.geo, g, i)) ==> forall k :: 0 <= k < SLOTS ==> Ptr(v.nodes, v.data, Slot(InodeNo(v.geo, g, i), k)) == 0
    ensures var n := InodeNo(v.geo, g, i);
      && 1 <= n <= |v.nodes| && v.Live(n) == !value
      && Flipped(v, p, n, node).Ok({}) && Files(v, Flipped(v, p, n, node), {n})
      && Flipped(v, p, n, node).Live(n) == value
  {
    hide Ptr, DataBlock, BlockUsed, Pool.Ok, Vol.Owned, Vol.Counted, Vol.PoolsOk, GroupSize, InodeUsed, TablesOk, Flipped, Files, Blank;
    InodeInTable(v, g, i);
    FlippedShape(v, p, g, i, node, value);
    FlippedLives(v, p, g, i, node, value);
    FlippedOwned(v, p, g, i, node, value);
    FlippedCounted(v, p, g, i, node, value);
    FlippedFiles(v, p, g, i, node, value);
    FlippedIs(v, p, InodeNo(v.geo, g, i), node);
  }

  lemma FlippedIs(v: Vol, p: Pool, n: nat, node: Inode)
    requires 1 <= n <= |v.nodes|
    ensures Flipped(v, p, n, node) == v.(inodes := p, nodes := v.nodes[n - 1 := node])
  {
  }

  lemma FlippedLives(v: Vol, p: Pool, g: nat, i: nat, node: Inode, value: bool)
    requires FlipReady(v, p, g, i, value)
    ensures var n := InodeNo(v.geo, g, i);
      && 1 <= n <= |v.nodes| && v.Live(n) == !value && Flipped(v, p, n, node).Live(n) == value
      && forall m: nat :: m != n ==> Flipped(v, p, n, node).Live(m) == v.Live(m)
  {
    hide Pool.Ok, GroupSize, InodeUsed, TablesOk;
    var n := InodeNo(v.geo, g, i);
    InodeInTable(v, g, i);
    assert v.inodes.bits[g] == v.inodes.bits[g][i := !value];
    assert v.inodes.bits == v.inodes.bits[g := v.inodes.bits[g][i := !value]];
    FlippedLive(v.geo, v.inodes, v.inodes, g, i, !value, n);
    FlippedLive(v.geo, v.inodes, p, g, i, value, n);
    forall m: nat | m != n ensures Flipped(v, p, n, node).Live(m) == v.Live(m) {
      FlippedLive(v.geo, v.inodes, p, g, i, value, m);
    }
  }

  lemma FlippedOwned(v: Vol, p: Pool, g: nat, i: nat, node: Inode, value: bool)
    requires v.Ok({}) && FlipReady(v, p, g, i, value) && Blank(node)
    requires 1 <= InodeNo(v.geo, g, i) <= |v.nodes| && Flipped(v, p, InodeNo(v.geo, g, i), node).Shape()
    requires v.Live(InodeNo(v.geo, g, i)) ==> forall k :: 0 <= k < SLOTS ==> Ptr(v.nodes, v.data, Slot(InodeNo(v.geo, g, i), k)) == 0
    ensures Flipped(v, p, InodeNo(v.geo, g, i), node).Owned({})
  {
    hide Ptr, DataBlock, BlockUsed, Pool.Ok, Vol.PoolsOk, Vol.Counted, GroupSize, InodeUsed, TablesOk, Blank;
    var n := InodeNo(v.geo, g, i);
    var w := Flipped(v, p, n, node);
    FlippedLives(v, p, g, i, node, value);
    hide FlipReady, InodeNo;
    forall s: Slot | 1 <= s.ino <= |v.nodes| && s.k < SLOTS ensures Ptr(w.nodes, w.data, s) == if s.ino == n then 0 else Ptr(v.nodes, v.data, s) {
      FlippedPtrs(v, p, n, node, s);
    }
    forall b | b in v.owner ensures v.owner[b].ino != n {
      if v.owner[b].ino == n {
        assert Ptr(v.nodes, v.data, v.owner[b]) == b;
        assert v.owner[b] == Slot(n, v.owner[b].k);
        DataBlockRange(v.geo, v.groups, b);
      }
    }
  }

  lemma FlippedCounted(v: Vol, p: Pool, g: nat, i: nat, node: Inode, value: bool)
    requires v.Ok({}) && FlipReady(v, p, g, i, value) && Blank(node)
    requires 1 <= InodeNo(v.geo, g, i) <= |v.nodes| && Flipped(v, p, InodeNo(v.geo, g, i), node).Shape()
    requires Flipped(v, p, InodeNo(v.geo, g, i), node).Owned({})
    ensures Flipped(v, p, InodeNo(v.geo, g, i), node).Counted()
  {
    hide DataBlock, BlockUsed, Pool.Ok, Vol.PoolsOk, GroupSize, InodeUsed, TablesOk, Ptr;
    var n := InodeNo(v.geo, g, i);
    var w := Flipped(v, p, n, node);
    FlippedLives(v, p, g, i, node, value);
    hide FlipReady, InodeNo;
    forall m: nat | w.Live(m) ensures w.nodes[m - 1].sectors == 2 * |OwnedBy(w.owner, m)| {
      if m == n {
        forall k | 0 <= k < SLOTS ensures Ptr(w.nodes, w.data, Slot(n, k)) == 0 {
          FlippedPtrs(v, p, n, node, Slot(n, k));
        }
        forall b | b in w.owner ensures w.owner[b].ino != n {
          DataBlockRange(v.geo, v.groups, b);
          assert w.owner[b] == Slot(w.owner[b].ino, w.owner[b].k);
        }
        assert OwnedBy(w.owner, n) == {};
      } else {
        assert v.Live(m) && OwnedBy(w.owner, m) == OwnedBy(v.owner, m);
      }
    }
  }

  lemma FlippedFiles(v: Vol, p: Pool, g: nat, i: nat, node: Inode, value: bool)
    requires v.Ok({}) && FlipReady(v, p, g, i, value) && Blank(node)
    requires 1 <= InodeNo(v.geo, g, i) <= |v.nodes| && Flipped(v, p, InodeNo(v.geo, g, i), node).Shape()
    ensures Files(v, Flipped(v, p, InodeNo(v.geo, g, i), node), {InodeNo(v.geo, g, i)})
  {
    hide DataBlock, BlockUsed, Pool.Ok, Vol.PoolsOk, Vol.Owned, Vol.Counted, GroupSize, InodeUsed, TablesOk, Ptr, Blank;
    var n := InodeNo(v.geo, g, i);
    var w := Flipped(v, p, n, node);
    FlippedLives(v, p, g, i, node, value);
    hide FlipReady, InodeNo;
    forall m: nat | m != n && v.Live(m) ensures Same(v, w, m) && SamePtrs(v, w, m) {
      forall s: Slot | s.ino == m && s.k < SLOTS ensures Ptr(w.nodes, w.data, s) == Ptr(v.nodes, v.data, s) {
        FlippedPtrs(v, p, n, node, s);
      }
    }
  }

  function BlankNode(mode: nat, links: nat, deleted: nat): (node: Inode)
    ensures Blank(node)
  {
    Inode(mode, links, 0, 0, [0, 0, 0, 0, 0, 0, 0, 0, 0, 0, 0, 0, 0], deleted)
  }

  /** allocate(1) marks inode `n` and clears it. */
  lemma InodeBorn(v: Vol, g: nat, i: nat, node: Inode)
    requires v.Ok({}) && v.inodes.Has(g, i) && !v.inodes.bits[g][i] && (g == 0 ==> i >= v.geo.firstInode - 1) && Blank(node)
    ensures v.inodes.free > 0 && |v.inodes.groupFree| == |v.inodes.bits| && v.inodes.groupFree[g] > 0
    ensures var n := InodeNo(v.geo, g, i);
      && 1 <= n <= |v.nodes| && !v.Live(n)
      && Flipped(v, v.inodes.Taken(g, i), n, node).Ok({}) && Files(v, Flipped(v, v.inodes.Taken(g, i), n, node), {n})
      && Flipped(v, v.inodes.Taken(g, i), n, node).Live(n)
      && n >= v.geo.firstInode
  {
    hide Ptr, DataBlock, BlockUsed, Pool.Ok, Vol.Owned, Vol.Counted, GroupSize, InodeUsed, TablesOk, Flipped, Files, Blank;
    PoolSizes(v.inodes);
    TakenOk(v.inodes, g, i);
    InodeInTable(v, g, i);
    FlipMarks(v, g, i, true);
    FlippedOk(v, v.inodes.Taken(g, i), g, i, node, true);
    FirstGroup(v.geo, g, i);
  }

  lemma FirstGroup(geo: Geometry, g: nat, i: nat)
    requires g > 0 || i >= geo.firstInode - 1
    requires geo.firstInode <= geo.inodesPerGroup + 1
    ensures InodeNo(geo, g, i) >= geo.firstInode
  {
    if g > 0 {
      ProductNonNegative(g - 1, geo.inodesPerGroup);
    }
  }

  lemma FlipMarks(v: Vol, g: nat, i: nat, value: bool)
    requires v.inodes.Has(g, i) && v.inodes.bits[g][i] == !value && v.Shape()
    ensures v.Live(InodeNo(v.geo, g, i)) == !value
  {
    hide Pool.Ok, GroupSize, InodeUsed, TablesOk;
    InodeInTable(v, g, i);
    assert v.inodes.bits[g] == v.inodes.bits[g][i := !value];
    assert v.inodes.bits == v.inodes.bits[g := v.inodes.bits[g][i := !value]];
    FlippedLive(v.geo, v.inodes, v.inodes, g, i, !value, InodeNo(v.geo, g, i));
  }

  /** release(n, 1) of an inode whose blocks were given back. */
  lemma InodeDies(v: Vol, w: Vol, n: nat, g: nat, i: nat, node: Inode)
    requires v.Ok({}) && v.Live(n) && n >= v.geo.firstInode && Blank(node)
    requires n == InodeNo(v.geo, g, i) && v.inodes.Has(g, i) && v.inodes.bits[g][i] && |v.inodes.groupFree| == |v.inodes.bits|
    requires w == Flipped(v, v.inodes.Given(g, i), n, node)
    requires forall k :: 0 <= k < SLOTS ==> Ptr(v.nodes, v.data, Slot(n, k)) == 0
    ensures w.Ok({}) && Files(v, w, {n}) && !w.Live(n)
  {
    hide Ptr, DataBlock, BlockUsed, Pool.Ok, Vol.Owned, Vol.Counted, GroupSize, TablesOk, Flipped, Files, Blank, InodeUsed;
    InodePlace(v.geo, g, i) by {
      InodeInTable(v, g, i);
    }
    GivenOk(v.inodes, g, i);
    FlippedOk(v, v.inodes.Given(g, i), g, i, node, false);
  }

  /** The bit of a live inode. */
  lemma LiveBit(geo: Geometry, p: Pool, n: nat, g: nat, i: nat)
    requires geo.inodesPerGroup > 0 && InodeUsed(geo, p, n)
    requires g == (n - 1) / geo.inodesPerGroup && i == (n - 1) % geo.inodesPerGroup
    ensures p.Has(g, i) && p.bits[g][i] && InodeNo(geo, g, i) == n
  {
  }

  lemma PoolSizes(p: Pool)
    requires p.Ok()
    ensures |p.groupFree| == |p.bits|
  {
  }
}
