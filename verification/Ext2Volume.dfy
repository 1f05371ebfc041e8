/** fs.c: the mounted volume, whose counters, bitmaps, inodes and blocks are changed in place. */
module Ext2Volume {
  import opened Bytes
  import opened Ext2Pools
  import opened Ext2Layout
  import opened Ext2Contents
  import opened Ext2Steps
  import opened Ext2Tree
  import opened Ext2Counts

  /** What begin() saves and a failed finish() puts back. */
  datatype Image = Image(groups: seq<Group>, blocks: Pool, inodes: Pool, nodes: seq<Inode>, data: seq<seq<Byte>>)

  class Volume {
    const geo: Geometry
    var groups: seq<Group>
    var blocks: Pool
    var inodes: Pool
    var nodes: seq<Inode>
    var data: seq<seq<Byte>>
    ghost var owner: map<nat, Slot>

    var saved: Image
    ghost var savedOwner: map<nat, Slot>

    /** The volume as engine_init found it. */
    constructor (geometry: Geometry, descriptors: seq<Group>, blockPool: Pool, inodePool: Pool, table: seq<Inode>,
                 contents: seq<seq<Byte>>, ghost owners: map<nat, Slot>)
      ensures V() == Vol(geometry, descriptors, blockPool, inodePool, table, contents, owners)
    {
      geo, groups, blocks, inodes, nodes, data, owner := geometry, descriptors, blockPool, inodePool, table, contents, owners;
      saved := Image(descriptors, blockPool, inodePool, table, contents);
      savedOwner := owners;
    }

    ghost function V(): Vol
      reads this
    {
      Vol(geo, groups, blocks, inodes, nodes, data, owner)
    }

    ghost function Saved(): Vol
      reads this
    {
      Vol(geo, saved.groups, saved.blocks, saved.inodes, saved.nodes, saved.data, savedOwner)
    }

    /** allocate(0): fails exactly when nothing is free. */
    method AllocateBlock() returns (n: nat)
      requires V().Ok({})
      modifies this`blocks, this`data
      ensures n == 0 ==> old(blocks.free) == 0 && V() == old(V())
      ensures n != 0 ==> blocks.free + 1 == old(blocks.free) && Handed(old(V()), V(), n)
    {
      hide Ptr, DataBlock, BlockUsed, InodeUsed, GroupSize, Pool.Ok, Vol.Counted, Vol.Owned, TablesOk, SearchFrom, Handed;
      PoolReady(V());
      SearchComplete(blocks, 0);
      var found, g, i := FindFree(blocks, 0);
      if !found {
        return 0;
      }
      HandedOk(V(), g, i);
      n := BlockNo(geo, g, i);
      if !DataBlock(geo, groups, n) || blocks.free == 0 {
        assert false; // corruption that a consistent volume rules out
      }
      blocks, data := blocks.Taken(g, i), data[n := ZeroBlock()];
    }

    /** Allocate a block into an empty slot and count it. */
    method Fill(s: Slot) returns (n: nat)
      requires V().Ok({}) && Fillable(V(), s)
      modifies this`blocks, this`data, this`nodes, this`owner
      ensures n == 0 ==> old(blocks.free) == 0 && V() == old(V())
      ensures n != 0 ==> V().Ok({}) && Kept(old(V()), V(), s.ino) && Repointed(old(V()), V(), s, n) && blocks.free + 1 == old(blocks.free)
    {
      hide Ptr, DataBlock, BlockUsed, InodeUsed, GroupSize, Pool.Ok, Vol.Counted, Vol.Owned, Vol.PoolsOk, TablesOk, Others, Kept, Repointed, PointNodes, PointData;
      ghost var u := V();
      n := AllocateBlock();
      if n == 0 {
        return;
      }
      ghost var v := V();
      AttachStep(u, v, s, n);
      PtrCount(nodes, data, s.ino);
      nodes, data := PointNodes(nodes, s, n, nodes[s.ino - 1].sectors + 2), PointData(nodes, data, s, n);
      owner := owner[n := s];
      assert V() == v.Attached(s, n);
    }

    /** file_slot: false when the slot would lie in an indirect block that is not there. */
    method FileSlot(ino: nat, index: nat, create: bool) returns (ok: bool)
      requires V().Ok({}) && V().Live(ino) && index < FILE_BLOCKS
      modifies this`blocks, this`data, this`nodes, this`owner
      ensures V().Ok({}) && Kept(old(V()), V(), ino)
      ensures !create || !ok ==> V() == old(V())
      ensures create && !ok ==> old(blocks.free) == 0
      ensures index < DIRECT ==> V() == old(V())
      ensures ok <==> index < DIRECT || nodes[ino - 1].ptr[INDIRECT_SLOT] != 0
      ensures forall i :: 0 <= i < FILE_BLOCKS ==> FileBlock(nodes, data, ino, i) == old(FileBlock(nodes, data, ino, i))
    {
      hide Ptr, DataBlock, BlockUsed, InodeUsed, GroupSize, Pool.Ok, Vol.Counted, Vol.Owned, Vol.PoolsOk, TablesOk, Others, Kept, PointNodes, PointData;
      OthersRefl(V(), ino);
      PtrCount(nodes, data, ino);
      IndirectPtr(nodes, data, ino);
      if index < DIRECT {
        return true;
      }
      if nodes[ino - 1].ptr[INDIRECT_SLOT] != 0 || !create {
        return nodes[ino - 1].ptr[INDIRECT_SLOT] != 0;
      }
      var n := Fill(Slot(ino, INDIRECT_SLOT));
      PtrCount(nodes, data, ino);
      IndirectPtr(nodes, data, ino);
      return n != 0;
    }

    /** The block of a file at `index`, allocated when it is a hole; 0 when the volume is full. */
    method BlockFor(ino: nat, index: nat) returns (b: nat)
      requires V().Ok({}) && V().Live(ino) && index < FILE_BLOCKS
      modifies this`blocks, this`data, this`nodes, this`owner
      ensures V().Ok({}) && Kept(old(V()), V(), ino)
      ensures b == 0 ==> blocks.free == 0
      ensures b == FileBlock(nodes, data, ino, index)
      ensures SameBut(old(V()), V(), ino, index)
    {
      hide Ptr, DataBlock, BlockUsed, InodeUsed, GroupSize, Pool.Ok, Vol.Counted, Vol.Owned, Vol.PoolsOk, TablesOk, Others, Kept, PointNodes, PointData, Repointed;
      var ok := FileSlot(ino, index, true);
      if !ok {
        NoFileBlock(nodes, data, ino, index);
        return 0;
      }
      b := FileBlock(nodes, data, ino, index);
      if b == 0 {
        ghost var u, v := old(V()), V();
        b := Fill(SlotOf(ino, index));
        if b != 0 {
          RepointedFile(v, V(), ino, index, b);
          KeptChain(u, v, V(), ino);
        }
      }
    }

    /** write_range. The bytes up to `size` may grow the file; other files keep theirs. */
    method WriteRange(ino: nat, offset: nat, bytes: seq<Byte>) returns (r: int)
      requires V().Ok({}) && V().Live(ino) && offset + |bytes| <= MAX_FILE
      modifies this`blocks, this`data, this`nodes, this`owner
      ensures r == 0 || r == -1
      ensures V().Ok({}) && Others(old(V()), V(), ino)
      ensures SameMeta(nodes[ino - 1], old(nodes[ino - 1]))
      ensures SameFrom(old(V()), V(), ino, (offset + |bytes| + BLOCK - 1) / BLOCK)
      ensures r == 0 ==> Spliced(old(V()), V(), ino, offset, bytes)
      ensures r == 0 ==> nodes[ino - 1].size == Max(old(nodes[ino - 1].size), offset + |bytes|)
      ensures r == 0 ==> HasRange(V(), ino, offset, |bytes|)
      ensures r != 0 ==> blocks.free == 0 && !HasRange(V(), ino, offset, |bytes|)
    {
      hide Ptr, DataBlock, BlockUsed, InodeUsed, GroupSize, Pool.Ok, Vol.Counted, Vol.Owned, Vol.PoolsOk, TablesOk, Others, Kept, PointNodes, PointData, Spliced, FileBlock, HasRange, SameFrom, SameBut;
      ghost var v0 := V();
      OthersRefl(v0, ino);
      SplicedNone(v0, ino, offset, bytes);
      RangeNone(v0, ino, offset, |bytes|);
      var done := 0;
      while done < |bytes|
        invariant 0 <= done <= |bytes| && V().Ok({}) && V().Live(ino) && Others(v0, V(), ino)
        invariant SameMeta(nodes[ino - 1], v0.nodes[ino - 1]) && nodes[ino - 1].size == v0.nodes[ino - 1].size
        invariant Spliced(v0, V(), ino, offset, bytes[..done])
        invariant HasRange(V(), ino, offset, done) && SameFrom(v0, V(), ino, (offset + |bytes| + BLOCK - 1) / BLOCK)
      {
        var index, within := (offset + done) / BLOCK, (offset + done) % BLOCK;
        var chunk := if BLOCK - within > |bytes| - done then |bytes| - done else BLOCK - within;
        ghost var v1 := V();
        var b := BlockFor(ino, index);
        WriteKept(v0, v1, V(), ino);
        SameFromBut(v0, v1, V(), ino, (offset + |bytes| + BLOCK - 1) / BLOCK, index);
        RangeMore(v1, V(), ino, offset, done, chunk, |bytes|);
        if b == 0 {
          return -1;
        }
        ghost var v2 := V();
        PokeStep(v2, ino, index, within, bytes[done..done + chunk]);
        WriteStep(v0, v1, v2, Poked(v2, b, within, bytes[done..done + chunk]), ino, offset, bytes, done, chunk);
        SameBlocksAfter(v0, v2, Poked(v2, b, within, bytes[done..done + chunk]), ino, (offset + |bytes| + BLOCK - 1) / BLOCK, offset, done + chunk);
        data := data[b := Splice(data[b], within, bytes[done..done + chunk])];
        assert V() == Poked(v2, b, within, bytes[done..done + chunk]);
        done := done + chunk;
      }
      assert bytes[..done] == bytes;
      r := 0;
      if offset + |bytes| > nodes[ino - 1].size {
        ghost var v := V();
        SizedStep(v, ino, offset + |bytes|);
        SplicedSized(v0, v, ino, offset, bytes, offset + |bytes|);
        OthersChain(v0, v, Sized(v, ino, offset + |bytes|), ino);
        SameBlocksAfter(v0, v, Sized(v, ino, offset + |bytes|), ino, (offset + |bytes| + BLOCK - 1) / BLOCK, offset, |bytes|);
        nodes := nodes[ino - 1 := nodes[ino - 1].(size := offset + |bytes|)];
        assert V() == Sized(v, ino, offset + |bytes|);
      }
    }

    /** put32(slot, 0), uncount, and release(b, 0). */
    method Drop(s: Slot, b: nat)
      requires V().Holds(s, b)
      modifies this`blocks, this`data, this`nodes, this`owner
      ensures V() == old(V()).Detached(s, b)
    {
      PtrCount(nodes, data, s.ino);
      ghost var v := V();
      blocks := blocks.Given(GroupOf(geo, b), IndexOf(geo, b));
      nodes, data := PointNodes(nodes, s, 0, nodes[s.ino - 1].sectors - 2), PointData(nodes, data, s, 0);
      owner := owner - {b};
    }

    /** truncate_blocks: everything from block `keep` on is given back and reads as zero. */
    method TruncateBlocks(ino: nat, keep: nat)
      requires V().Ok({}) && V().Live(ino) && keep <= FILE_BLOCKS
      modifies this`blocks, this`data, this`nodes, this`owner
      ensures V().Ok({}) && Others(old(V()), V(), ino) && Wiped(old(V()), V(), ino, keep, FILE_BLOCKS)
      ensures SameMeta(nodes[ino - 1], old(nodes[ino - 1])) && nodes[ino - 1].size == old(nodes[ino - 1].size)
      ensures HasNone(V(), ino, keep)
    {
      hide Ptr, DataBlock, BlockUsed, InodeUsed, GroupSize, Pool.Ok, Vol.Counted, Vol.Owned, Vol.PoolsOk, TablesOk, Others, Kept, Vol.Holds, Wiped, FileBlock;
      ghost var v := V();
      OthersRefl(v, ino);
      WipedNone(v, ino, keep);
      var i := keep;
      while i < FILE_BLOCKS
        invariant keep <= i <= FILE_BLOCKS && V().Ok({}) && V().Live(ino) && Others(v, V(), ino) && Wiped(v, V(), ino, keep, i)
        invariant SameMeta(nodes[ino - 1], v.nodes[ino - 1]) && nodes[ino - 1].size == v.nodes[ino - 1].size
        invariant forall j :: keep <= j < i ==> FileBlock(nodes, data, ino, j) == 0
      {
        var ok := FileSlot(ino, i, false);
        if !ok {
          NoFileBlock(nodes, data, ino, i);
        }
        if ok && FileBlock(nodes, data, ino, i) != 0 {
          WipedStep(v, V(), ino, keep, i, FileBlock(nodes, data, ino, i));
          SlotPtr(nodes, data, ino, i);
          Drop(SlotOf(ino, i), FileBlock(nodes, data, ino, i));
        } else {
          WipedHole(v, V(), ino, keep, i);
        }
        i := i + 1;
      }
      PtrCount(nodes, data, ino);
      IndirectPtr(nodes, data, ino);
      if keep <= DIRECT && nodes[ino - 1].ptr[INDIRECT_SLOT] != 0 {
        WipedIndirect(v, V(), ino, keep, nodes[ino - 1].ptr[INDIRECT_SLOT]);
        Drop(Slot(ino, INDIRECT_SLOT), nodes[ino - 1].ptr[INDIRECT_SLOT]);
        PtrCount(nodes, data, ino);
        IndirectPtr(nodes, data, ino);
      }
    }

    /** write_file, once the inode is known: it fails exactly when the free blocks and the file's
        own are too few. */
    method WriteFile(ino: nat, bytes: seq<Byte>) returns (r: int)
      requires V().Ok({}) && V().Live(ino) && |bytes| <= MAX_FILE
      modifies this`blocks, this`data, this`nodes, this`owner
      ensures r == 0 || r == -1
      ensures V().Ok({}) && Others(old(V()), V(), ino)
      ensures SameMeta(nodes[ino - 1], old(nodes[ino - 1]))
      ensures r == 0 ==> Exactly(V(), ino, bytes)
      ensures r == -1 <==> old(blocks.free) + |OwnedBy(old(owner), ino)| < BlocksFor(|bytes|)
    {
      hide Ptr, DataBlock, BlockUsed, InodeUsed, GroupSize, Pool.Ok, Vol.Counted, Vol.Owned, Vol.PoolsOk, TablesOk, Others, Kept, Spliced, Wiped, FileBlock, SameRaw, Zeros, Raw, HasRange, SameFrom, HasAll, HasNone, BlocksFor, OwnedBy;
      ghost var v0 := V();
      TruncateBlocks(ino, (|bytes| + BLOCK - 1) / BLOCK);
      ghost var v1 := V();
      r := WriteRange(ino, 0, bytes);
      ghost var v2 := V();
      OthersChain(v0, v1, v2, ino);
      NothingPast(v1, v2, ino, |bytes|);
      Capacity(v0, v2, ino, |bytes|);
      if r != 0 {
        return -1;
      }
      if |bytes| % BLOCK != 0 {
        LastBlock(v2, ino, |bytes|);
        var b, within := FileBlock(nodes, data, ino, |bytes| / BLOCK), |bytes| % BLOCK;
        PokeStep(v2, ino, |bytes| / BLOCK, within, Zeros(BLOCK - within));
        OthersChain(v0, v2, Poked(v2, b, within, Zeros(BLOCK - within)), ino);
        data := data[b := Splice(data[b], within, Zeros(BLOCK - within))];
        assert V() == Poked(v2, b, within, Zeros(BLOCK - within));
      }
      ghost var v3 := V();
      Rewritten(v0, v1, v2, v3, ino, bytes);
      SizedStep(v3, ino, |bytes|);
      ExactSized(v3, ino, bytes);
      OthersChain(v0, v3, Sized(v3, ino, |bytes|), ino);
      nodes := nodes[ino - 1 := nodes[ino - 1].(size := |bytes|)];
      assert V() == Sized(v3, ino, |bytes|);
    }

    /** What is read of one block: its bytes, or zeros for a hole. */
    method Piece(ino: nat, start: nat, size: nat, done: nat, chunk: nat) returns (piece: seq<Byte>)
      requires V().Ok({}) && V().Live(ino) && start + size <= nodes[ino - 1].size <= MAX_FILE && done + chunk <= size
      requires 0 < chunk <= BLOCK - (start + done) % BLOCK
      ensures piece == Contents(V(), ino)[start..start + size][done..done + chunk]
    {
      hide Ptr, DataBlock, BlockUsed, InodeUsed, GroupSize, Pool.Ok, Vol.Counted, Vol.Owned, Vol.PoolsOk, TablesOk, FileBlock, Contents, Zeros;
      var offset := start + done;
      var b, within := FileBlock(nodes, data, ino, offset / BLOCK), offset % BLOCK;
      if b != 0 {
        FileOwned(V(), {}, ino, offset / BLOCK);
      }
      BlockSize(nodes, data, b);
      piece := if b != 0 then data[b][within..within + chunk] else Zeros(chunk);
      ChunkAt(V(), ino, start, size, done, chunk, piece);
    }

    /** engine_read, once the inode is known: a slice of the contents, holes read as zeros. */
    method Read(ino: nat, start: nat, count: nat, out: array<Byte>) returns (r: int)
      requires V().Ok({}) && V().Live(ino) && nodes[ino - 1].size <= MAX_FILE && count <= out.Length
      modifies out
      ensures r == -1 <==> start > nodes[ino - 1].size
      ensures r != -1 ==> r == if count > nodes[ino - 1].size - start then nodes[ino - 1].size - start else count
      ensures r != -1 ==> out[..r] == Contents(V(), ino)[start..start + r] && out[r..] == old(out[r..])
    {
      hide Ptr, DataBlock, BlockUsed, InodeUsed, GroupSize, Pool.Ok, Vol.Counted, Vol.Owned, Vol.PoolsOk, TablesOk, FileBlock, Contents, Splice, Copied, Zeros;
      if start > nodes[ino - 1].size {
        return -1;
      }
      ghost var v, before := V(), out[..];
      var size := if count > nodes[ino - 1].size - start then nodes[ino - 1].size - start else count;
      ghost var wanted := Contents(v, ino)[start..start + size];
      var offset, done := start, 0;
      NoneCopied(before, wanted);
      while done < size
        invariant 0 <= done <= size && offset == start + done
        invariant Copied(before, out[..], wanted, done)
      {
        var within := offset % BLOCK;
        var chunk := if BLOCK - within > size - done then size - done else BLOCK - within;
        var piece := Piece(ino, start, size, done, chunk);
        MoreCopied(before, out[..], wanted, done, piece);
        CopyTo(out, done, piece);
        offset, done := offset + chunk, done + chunk;
      }
      AllCopied(before, out[..], wanted);
      r := size;
    }

    /** begin(). */
    method Begin()
      modifies this`saved, this`savedOwner
      ensures Saved() == V() == old(V())
    {
      saved := Image(groups, blocks, inodes, nodes, data);
      savedOwner := owner;
    }

    /** finish(): a failed operation puts back what begin() saw; the hints stay. */
    method Finish(result: int) returns (r: int)
      requires result != 0 ==> blocks.hint < |saved.blocks.bits| && inodes.hint < |saved.inodes.bits|
      modifies this
      ensures r == if result == 0 then 0 else -1
      ensures result == 0 ==> V() == old(V())
      ensures result != 0 ==> V() == Rolled(old(Saved()), old(blocks.hint), old(inodes.hint))
    {
      if result == 0 {
        return 0;
      }
      groups, nodes, data := saved.groups, saved.nodes, saved.data;
      blocks, inodes := saved.blocks.(hint := blocks.hint), saved.inodes.(hint := inodes.hint);
      owner := savedOwner;
      r := -1;
    }

    /** engine_append to a file that exists: all of it, or nothing. */
    method Append(ino: nat, bytes: seq<Byte>) returns (r: int)
      requires V().Ok({}) && V().Live(ino) && nodes[ino - 1].size <= MAX_FILE
      modifies this
      ensures r == 0 || r == -1
      ensures V().Ok({}) && Others(old(V()), V(), ino)
      ensures nodes[ino - 1].size <= MAX_FILE
      ensures r == 0 ==> Contents(V(), ino) == Contents(old(V()), ino) + bytes
      ensures r != 0 ==> V() == Rolled(old(V()), blocks.hint, inodes.hint)
    {
      hide Ptr, DataBlock, BlockUsed, InodeUsed, GroupSize, Pool.Ok, Vol.Counted, Vol.Owned, Vol.PoolsOk, TablesOk, FileBlock, Others, Spliced, Contents;
      OthersRefl(V(), ino);
      if |bytes| > MAX_FILE - nodes[ino - 1].size {
        return -1;
      }
      Begin();
      ghost var v := V();
      r := WriteRange(ino, nodes[ino - 1].size, bytes);
      if r == 0 {
        Appended(v, V(), ino, bytes);
      } else {
        HintsInRange(v);
        HintsInRange(V());
        RolledOk(v, blocks.hint, inodes.hint, ino);
      }
      r := Finish(r);
    }

    /** allocate(1): fails exactly when every inode is in use. */
    method AllocateInode() returns (n: nat)
      requires V().Ok({})
      modifies this`inodes, this`nodes
      ensures n == 0 ==> old(inodes.free) == 0 && V() == old(V())
      ensures n != 0 ==> old(inodes.free) == inodes.free + 1
      ensures n != 0 ==> !old(V()).Live(n) && V().Ok({}) && V().Live(n) && n >= geo.firstInode
      ensures n != 0 ==> Files(old(V()), V(), {n}) && nodes == old(nodes)[n - 1 := BlankNode(0, 0, 0)]
    {
      hide Ptr, DataBlock, BlockUsed, InodeUsed, GroupSize, Pool.Ok, Vol.Counted, Vol.Owned, TablesOk, SearchFrom, Files;
      PoolReady(V());
      SearchComplete(inodes, geo.firstInode - 1);
      var found, g, i := FindFree(inodes, geo.firstInode - 1);
      if !found {
        return 0;
      }
      InodeBorn(V(), g, i, BlankNode(0, 0, 0));
      n := InodeNo(geo, g, i);
      inodes, nodes := inodes.Taken(g, i), nodes[n - 1 := BlankNode(0, 0, 0)];
    }

    /** memset(node, 0), the deletion time, and release(n, 1). */
    method ReleaseInode(n: nat, deleted: nat)
      requires V().Ok({}) && V().Live(n) && n >= geo.firstInode
      requires forall k :: 0 <= k < SLOTS ==> Ptr(nodes, data, Slot(n, k)) == 0
      modifies this`inodes, this`nodes
      ensures V().Ok({}) && Files(old(V()), V(), {n}) && !V().Live(n)
      ensures inodes.free == old(inodes.free) + 1 && 1 <= n <= |nodes| == |old(nodes)| && nodes[n - 1].deleted == deleted
    {
      hide Ptr, DataBlock, BlockUsed, InodeUsed, GroupSize, Pool.Ok, Vol.Counted, Vol.Owned, Vol.PoolsOk, TablesOk, Files;
      var g, i := (n - 1) / geo.inodesPerGroup, (n - 1) % geo.inodesPerGroup;
      ghost var v := V();
      LiveBit(geo, inodes, n, g, i);
      PoolReady(v);
      PoolSizes(inodes);
      InodeDies(v, Flipped(v, inodes.Given(g, i), n, BlankNode(0, 0, deleted)), n, g, i, BlankNode(0, 0, deleted));
      inodes, nodes := inodes.Given(g, i), nodes[n - 1 := BlankNode(0, 0, deleted)];
    }
  }
}
