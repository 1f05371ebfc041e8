/** fs.c: supported(), the check every operation makes of an inode before following it, on any
    volume. On a consistent one its block checks never reject, so it comes down to the inode's
    own fields. */
module Ext2Supported {
  import opened Bytes
  import opened Ext2Layout
  import opened Ext2Tree
  import opened Ext2Counts
  import opened Ext2Dirs
  import opened Ext2Volume

  /** What supported(node, FILE_MODE) asks besides its blocks. */
  predicate IsFile(node: Inode) {
    Kind(node.mode) == FILE_MODE && node.size <= MAX_FILE && node.links != 0
  }

  /** What supported(node, DIR_MODE) asks besides that its blocks are good. */
  predicate IsDir(node: Inode) {
    Kind(node.mode) == DIR_MODE && 0 < node.size <= DIRECT * BLOCK && node.size % BLOCK == 0 && node.links != 0 &&
    |node.ptr| == 13 && node.ptr[INDIRECT_SLOT] == 0 && forall i :: 0 <= i < node.size / BLOCK ==> node.ptr[i] != 0
  }

  ghost predicate Good(v: Vol, b: nat)
    requires v.Shape()
  {
    DataBlock(v.geo, v.groups, b) && BlockUsed(v.geo, v.blocks, b)
  }

  /** No pointer of the inode names anything but a data block in use, and no two the same. */
  ghost predicate BlocksGood(v: Vol, n: nat)
    requires v.Shape() && 1 <= n <= |v.nodes|
  {
    && (forall k :: 0 <= k < SLOTS && Ptr(v.nodes, v.data, Slot(n, k)) != 0 ==> Good(v, Ptr(v.nodes, v.data, Slot(n, k))))
    && (forall j, k :: 0 <= j < SLOTS && 0 <= k < SLOTS && j != k && Ptr(v.nodes, v.data, Slot(n, k)) != 0 ==>
          Ptr(v.nodes, v.data, Slot(n, j)) != Ptr(v.nodes, v.data, Slot(n, k)))
  }

  /** What inode() and supported() together accept. */
  ghost predicate Passes(v: Vol, n: nat, kind: nat)
    requires v.Shape()
  {
    && v.Live(n) && (if kind == FILE_MODE then IsFile(v.nodes[n - 1]) else IsDir(v.nodes[n - 1]))
    && BlocksGood(v, n) && v.nodes[n - 1].sectors == 2 * CountPtrs(v, n, SLOTS)
  }

  /** On a consistent volume every live inode's blocks pass. */
  lemma PassesExactly(v: Vol, n: nat, kind: nat)
    requires v.Ok({}) && v.Live(n)
    ensures Passes(v, n, kind) <==> if kind == FILE_MODE then IsFile(v.nodes[n - 1]) else IsDir(v.nodes[n - 1])
  {
    hide Ptr, InodeUsed, TablesOk, DataBlock, BlockUsed, Vol.Owned, Vol.PoolsOk, Vol.Counted, CountPtrs, IsFile, IsDir;
    BlocksSupported(v, n);
  }

  /** mark_block, but for the read error. */
  method MarkBlock(vol: Volume, b: nat, seen: seq<nat>) returns (ok: bool)
    requires vol.V().Shape()
    ensures ok <==> DataBlock(vol.geo, vol.groups, b) && BlockUsed(vol.geo, vol.blocks, b) && b !in seen
  {
    hide TablesOk, GroupSize, BackupGroup;
    if !DataBlock(vol.geo, vol.groups, b) {
      return false;
    }
    if !BlockUsed(vol.geo, vol.blocks, b) {
      return false;
    }
    for i := 0 to |seen|
      invariant b !in seen[..i]
    {
      if seen[i] == b { return false; }
    }
    assert seen[..|seen|] == seen;
    ok := true;
  }

  /** Was slot `k` looked at before file block `i`? The indirect slot comes first. */
  predicate Before(k: nat, i: nat) {
    k == INDIRECT_SLOT || k < if i < DIRECT then i else i + 1
  }

  /** Nonzero pointers among those slots. */
  function CountBefore(v: Vol, n: nat, i: nat): nat
    requires TablesOk(v.nodes, v.data) && 1 <= n <= |v.nodes| && i <= FILE_BLOCKS
  {
    if i < DIRECT then CountPtrs(v, n, i) + if Ptr(v.nodes, v.data, Slot(n, INDIRECT_SLOT)) != 0 then 1 else 0
    else CountPtrs(v, n, i + 1)
  }

  /** The slots looked at before file block `i` are good, and `seen` lists their blocks. */
  ghost predicate Marked(v: Vol, n: nat, seen: seq<nat>, i: nat)
    requires v.Shape() && 1 <= n <= |v.nodes| && i <= FILE_BLOCKS
  {
    && |seen| == CountBefore(v, n, i)
    && (forall b :: b in seen ==> exists k :: 0 <= k < SLOTS && Before(k, i) && Ptr(v.nodes, v.data, Slot(n, k)) == b != 0)
    && (forall k :: 0 <= k < SLOTS && Before(k, i) && Ptr(v.nodes, v.data, Slot(n, k)) != 0 ==>
          Ptr(v.nodes, v.data, Slot(n, k)) in seen && Good(v, Ptr(v.nodes, v.data, Slot(n, k))))
    && (forall j, k :: 0 <= j < SLOTS && 0 <= k < SLOTS && j != k && Before(j, i) && Before(k, i) && Ptr(v.nodes, v.data, Slot(n, k)) != 0 ==>
          Ptr(v.nodes, v.data, Slot(n, j)) != Ptr(v.nodes, v.data, Slot(n, k)))
  }

  lemma MarkedFirst(v: Vol, n: nat)
    requires v.Shape() && 1 <= n <= |v.nodes|
    requires Ptr(v.nodes, v.data, Slot(n, INDIRECT_SLOT)) != 0 ==> Good(v, Ptr(v.nodes, v.data, Slot(n, INDIRECT_SLOT)))
    ensures var b := Ptr(v.nodes, v.data, Slot(n, INDIRECT_SLOT)); Marked(v, n, if b != 0 then [b] else [], 0)
  {
    hide Ptr, TablesOk, Good, GroupSize;
    assert CountPtrs(v, n, 0) == 0;
  }

  lemma NextSlot(v: Vol, n: nat, i: nat)
    requires TablesOk(v.nodes, v.data) && 1 <= n <= |v.nodes| && i < FILE_BLOCKS
    ensures var k := SlotOf(n, i).k;
      && k < SLOTS && SlotOf(n, i) == Slot(n, k) && !Before(k, i) && (forall j :: Before(j, i + 1) <==> Before(j, i) || j == k)
      && FileBlock(v.nodes, v.data, n, i) == Ptr(v.nodes, v.data, Slot(n, k))
      && CountBefore(v, n, i + 1) == CountBefore(v, n, i) + if FileBlock(v.nodes, v.data, n, i) != 0 then 1 else 0
  {
    hide Ptr, TablesOk;
    if i == DIRECT - 1 {
      assert CountPtrs(v, n, i + 2) == CountPtrs(v, n, i + 1) + if Ptr(v.nodes, v.data, Slot(n, INDIRECT_SLOT)) != 0 then 1 else 0;
    }
  }

  /** One more block that is good and new. */
  lemma MarkedNext(v: Vol, n: nat, seen: seq<nat>, i: nat)
    requires v.Shape() && 1 <= n <= |v.nodes| && i < FILE_BLOCKS && Marked(v, n, seen, i)
    requires var b := FileBlock(v.nodes, v.data, n, i); b != 0 ==> Good(v, b) && b !in seen
    ensures var b := FileBlock(v.nodes, v.data, n, i); Marked(v, n, if b != 0 then seen + [b] else seen, i + 1)
  {
    hide Ptr, TablesOk, Good, GroupSize, FileBlock, Before, CountBefore, SlotOf;
    NextSlot(v, n, i);
    var k := SlotOf(n, i).k;
    assert forall j :: 0 <= j < SLOTS && Before(j, i) && Ptr(v.nodes, v.data, Slot(n, j)) != 0 ==> Ptr(v.nodes, v.data, Slot(n, j)) in seen;
  }

  /** One that is not. */
  lemma MarkedClash(v: Vol, n: nat, seen: seq<nat>, i: nat)
    requires v.Shape() && 1 <= n <= |v.nodes| && i < FILE_BLOCKS && Marked(v, n, seen, i)
    requires var b := FileBlock(v.nodes, v.data, n, i); b != 0 && (!Good(v, b) || b in seen)
    ensures !BlocksGood(v, n)
  {
    hide Ptr, TablesOk, Good, GroupSize, FileBlock, Before, CountBefore, SlotOf;
    NextSlot(v, n, i);
    var b := FileBlock(v.nodes, v.data, n, i);
    if b in seen {
      var j :| 0 <= j < SLOTS && Before(j, i) && Ptr(v.nodes, v.data, Slot(n, j)) == b;
      assert j != SlotOf(n, i).k;
    }
  }

  /** Everything was looked at: a file's blocks, or a directory's, which has no indirect ones. */
  lemma AllMarked(v: Vol, n: nat, seen: seq<nat>, i: nat)
    requires v.Shape() && 1 <= n <= |v.nodes| && i <= FILE_BLOCKS && Marked(v, n, seen, i)
    requires i == FILE_BLOCKS || (i == DIRECT && v.nodes[n - 1].ptr[INDIRECT_SLOT] == 0)
    ensures BlocksGood(v, n) && |seen| == CountPtrs(v, n, SLOTS)
  {
    if i == DIRECT {
      NoIndirect(v, n, SLOTS);
    }
    hide Good, GroupSize, TablesOk;
    forall k | 0 <= k < SLOTS && Ptr(v.nodes, v.data, Slot(n, k)) != 0 ensures Before(k, i) {
    }
  }

  lemma {:induction false} NoIndirect(v: Vol, n: nat, k: nat)
    requires TablesOk(v.nodes, v.data) && 1 <= n <= |v.nodes| && v.nodes[n - 1].ptr[INDIRECT_SLOT] == 0 && DIRECT < k <= SLOTS
    ensures CountPtrs(v, n, k) == CountPtrs(v, n, DIRECT + 1)
  {
    if k > DIRECT + 1 {
      NoIndirect(v, n, k - 1);
    }
  }

  /** supported(). */
  method Supported(vol: Volume, n: nat, kind: nat) returns (r: bool)
    requires vol.V().Shape() && vol.V().Live(n) && kind in {FILE_MODE, DIR_MODE}
    ensures r <==> Passes(vol.V(), n, kind)
  {
    hide InodeUsed, GroupSize, DataBlock, BlockUsed, Marked, BlocksGood, CountPtrs, Load32;
    ghost var v := vol.V();
    var node := vol.nodes[n - 1];
    assert |node.ptr| == 13;
    if Kind(node.mode) != kind || (kind == FILE_MODE && node.size > MAX_FILE) {
      return false;
    }
    var indirect := node.ptr[INDIRECT_SLOT];
    if kind == DIR_MODE && (node.size == 0 || node.size > DIRECT * BLOCK || node.size % BLOCK != 0 || indirect != 0) {
      return false;
    }
    var seen: seq<nat> := [];
    if indirect != 0 {
      var ok := MarkBlock(vol, indirect, seen);
      if !ok {
        BadIndirect(v, n);
        return false;
      }
      seen := [indirect];
    }
    MarkedFirst(v, n);
    var limit := if kind == FILE_MODE then FILE_BLOCKS else DIRECT;
    for i := 0 to limit
      invariant Marked(v, n, seen, i)
      invariant kind == DIR_MODE ==> forall j :: 0 <= j < i && j < node.size / BLOCK ==> node.ptr[j] != 0
    {
      var b := FileBlock(vol.nodes, vol.data, n, i);
      if b != 0 {
        var ok := MarkBlock(vol, b, seen);
        if !ok {
          MarkedClash(v, n, seen, i);
          return false;
        }
      }
      MarkedNext(v, n, seen, i);
      if b != 0 {
        seen := seen + [b];
      }
      if kind == DIR_MODE && i < node.size / BLOCK && b == 0 {
        assert node.ptr[i] == 0;
        return false;
      }
    }
    AllMarked(v, n, seen, limit);
    r := node.links != 0 && node.sectors == 2 * |seen|;
  }

  lemma BadIndirect(v: Vol, n: nat)
    requires v.Shape() && 1 <= n <= |v.nodes| && v.nodes[n - 1].ptr[INDIRECT_SLOT] != 0
    requires !Good(v, v.nodes[n - 1].ptr[INDIRECT_SLOT])
    ensures !BlocksGood(v, n)
  {
    hide Good, GroupSize;
    assert Ptr(v.nodes, v.data, Slot(n, INDIRECT_SLOT)) == v.nodes[n - 1].ptr[INDIRECT_SLOT];
  }
}
