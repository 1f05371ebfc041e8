/** fs.c: the engine_ operations on names of the working directory. */
module Ext2Engine {
  import opened Bytes
  import opened Ext2Pools
  import opened Ext2Layout
  import opened Ext2Contents
  import opened Ext2Steps
  import opened Ext2Directory
  import opened Ext2Names
  import opened Ext2Tree
  import opened Ext2Counts
  import opened Ext2Dirs
  import opened Ext2Volume
  import opened Ext2Supported
  import opened Ext2Growth
  import opened Ext2Tidy

  const ROOT_INO := 2

  /** valid_name, with '/' and '.' as bytes. */
  predicate ValidName(name: seq<Byte>) {
    0 < |name| <= MAX_NAME && 47 !in name && name != [46] && name != [46, 46]
  }

  /** The blocks of a well-formed directory. */
  ghost function Listing(v: Vol, filetype: bool, dir: nat): seq<Block> {
    if v.Shape() && DirAt(v, filetype, dir) then DirBlocks(v, dir) else []
  }

  /** No record in these blocks has room for the name. */
  ghost predicate Full(f: Format, blocks: seq<Block>, name: seq<Byte>) {
    && AllTiled(f, blocks) && |name| < 256
    && forall i :: 0 <= i < |blocks| ==> !Roomy(f, blocks[i], 0, Need(|name|))
  }

  /** A name that insert() cannot find a place for: no record of the directory has room, and it
      can have no further block once `taken` have been allocated for other things. */
  ghost predicate Stuck(v: Vol, filetype: bool, blocks: seq<Block>, name: seq<Byte>, taken: nat) {
    Full(FormatOf(v, filetype), blocks, name) && (|blocks| == DIRECT || v.blocks.free <= taken)
  }

  /** A name that makes insert() grow the directory although a block is mapped past its size. */
  ghost predicate Overgrows(v: Vol, filetype: bool, dir: nat, blocks: seq<Block>, name: seq<Byte>, taken: nat) {
    Full(FormatOf(v, filetype), blocks, name) && |blocks| < DIRECT && v.blocks.free > taken && !HoleAt(v, dir, |blocks|)
  }

  /** Blocks the directory itself takes for one more name. */
  ghost function Growth(v: Vol, filetype: bool, blocks: seq<Block>, name: seq<Byte>): nat {
    if Full(FormatOf(v, filetype), blocks, name) then 1 else 0
  }

  /** None of these depends on anything but the directory and the number of free blocks. */
  lemma StuckSame(v: Vol, w: Vol, filetype: bool, dir: nat, name: seq<Byte>, taken: nat)
    requires v.Shape() && w.Shape() && DirAt(v, filetype, dir) && DirAt(w, filetype, dir)
    requires 1 <= dir <= |v.nodes| == |w.nodes| && SameRoom(v, w, dir, taken)
    ensures Stuck(v, filetype, Listing(v, filetype, dir), name, taken) <==> Stuck(w, filetype, Listing(w, filetype, dir), name, 0)
    ensures Overgrows(v, filetype, dir, Listing(v, filetype, dir), name, taken)
            <==> Overgrows(w, filetype, dir, Listing(w, filetype, dir), name, 0)
    ensures Growth(v, filetype, Listing(v, filetype, dir), name) == Growth(w, filetype, Listing(w, filetype, dir), name)
  {
    hide TablesOk, GroupSize, DirBlocks, DirOk, Plain, Full, Ptr;
    var count := |DirBlocks(v, dir)|;
    if count < DIRECT {
      assert Ptr(w.nodes, w.data, Slot(dir, count)) == Ptr(v.nodes, v.data, Slot(dir, count));
      assert SlotOf(dir, count) == Slot(dir, count);
    }
  }

  /** The same blocks in the same places, and `taken` free blocks less in the volume. */
  ghost predicate SameRoom(v: Vol, w: Vol, dir: nat, taken: nat)
    requires v.Shape() && w.Shape() && 1 <= dir <= |v.nodes| == |w.nodes|
  {
    && v.nodes[dir - 1].size == w.nodes[dir - 1].size <= MAX_FILE && DirBlocks(w, dir) == DirBlocks(v, dir)
    && SamePtrs(v, w, dir) && w.blocks.free + taken == v.blocks.free
  }

  /** A directory that an operation left alone. */
  lemma KeepsRoom(v: Vol, w: Vol, filetype: bool, dir: nat, except: set<nat>, taken: nat)
    requires v.Shape() && w.Shape() && |v.nodes| == |w.nodes| && DirAt(v, filetype, dir) && Files(v, w, except) && dir !in except
    requires w.blocks.free + taken == v.blocks.free
    ensures 1 <= dir <= |v.nodes| && SameRoom(v, w, dir, taken)
  {
    DirLive(v, filetype, dir);
    FilesSame(v, w, except, dir);
    hide TablesOk, GroupSize, DirBlocks, DirAt, Files, SamePtrs, SameRaw;
    DirBlocksSame(v, w, dir);
  }

  lemma StuckBefore(v: Vol, w: Vol, filetype: bool, dir: nat, name: seq<Byte>, n: nat)
    requires v.Shape() && w.Shape() && |v.nodes| == |w.nodes| && DirAt(v, filetype, dir) && DirAt(w, filetype, dir)
    requires Files(v, w, {n}) && n != dir && w.blocks == v.blocks
    ensures Stuck(v, filetype, Listing(v, filetype, dir), name, 0) <==> Stuck(w, filetype, Listing(w, filetype, dir), name, 0)
    ensures Overgrows(v, filetype, dir, Listing(v, filetype, dir), name, 0)
            <==> Overgrows(w, filetype, dir, Listing(w, filetype, dir), name, 0)
    ensures Growth(v, filetype, Listing(v, filetype, dir), name) == Growth(w, filetype, Listing(w, filetype, dir), name)
  {
    hide TablesOk, GroupSize, Listing, Growth, Stuck, Overgrows, DirAt, Files, SameRoom;
    KeepsRoom(v, w, filetype, dir, {n}, 0);
    StuckSame(v, w, filetype, dir, name, 0);
  }

  lemma FilesSame(v: Vol, w: Vol, except: set<nat>, n: nat)
    requires v.Shape() && w.Shape() && Files(v, w, except) && v.Live(n) && n !in except
    ensures 1 <= n <= |v.nodes| == |w.nodes| && Same(v, w, n) && SamePtrs(v, w, n)
  {
    hide TablesOk, GroupSize, SameRaw, SamePtrs, SameMeta, InodeUsed;
  }

  /** Why creating a file can fail. */
  ghost predicate Uncreatable(v: Vol, filetype: bool, dir: nat, name: seq<Byte>)
    requires v.Shape() && DirAt(v, filetype, dir)
  {
    !ValidName(name) || name in DirMap(v, filetype, dir) || v.inodes.free == 0
    || Stuck(v, filetype, Listing(v, filetype, dir), name, 0)
  }

  /** No further directory can name this one as its parent. */
  predicate LinksFull(v: Vol, dir: nat) {
    1 <= dir <= |v.nodes| && v.nodes[dir - 1].links == 65535
  }

  /** Is the name bound? */
  ghost predicate Names(v: Vol, filetype: bool, dir: nat, name: seq<Byte>) {
    v.Shape() && DirAt(v, filetype, dir) && name in DirMap(v, filetype, dir)
  }

  /** Why mkdir can fail. */
  ghost predicate Unmakeable(v: Vol, filetype: bool, dir: nat, name: seq<Byte>)
    requires v.Shape() && DirAt(v, filetype, dir)
  {
    !ValidName(name) || name in DirMap(v, filetype, dir) || v.inodes.free == 0 || v.blocks.free == 0
    || LinksFull(v, dir) || Stuck(v, filetype, Listing(v, filetype, dir), name, 1)
  }

  /** Why write can fail: the name, the size, what the name is bound to, or the free blocks, to
      which those of a file that is there already count. */
  ghost predicate Unwritable(v: Vol, filetype: bool, dir: nat, name: seq<Byte>, size: nat)
    requires v.Shape() && DirAt(v, filetype, dir)
  {
    || !ValidName(name) || size > MAX_FILE
    || if name in DirMap(v, filetype, dir) then
         var n := DirMap(v, filetype, dir)[name].ino;
         !(v.Live(n) && IsFile(v.nodes[n - 1])) || v.blocks.free + |OwnedBy(v.owner, n)| < BlocksFor(size)
       else
         || Uncreatable(v, filetype, dir, name) || Overgrows(v, filetype, dir, Listing(v, filetype, dir), name, 0)
         || v.blocks.free < Growth(v, filetype, Listing(v, filetype, dir), name) + BlocksFor(size)
  }

  /** What insert() promises: one more binding in one directory. */
  ghost predicate Bound(v: Vol, w: Vol, filetype: bool, dir: nat, name: seq<Byte>, b: Binding) {
    && v.Shape() && DirAt(v, filetype, dir) && w.Ok({}) && Others(v, w, dir) && DirAt(w, filetype, dir)
    && name !in DirMap(v, filetype, dir) && DirMap(w, filetype, dir) == DirMap(v, filetype, dir)[name := b]
    && SameMeta(v.nodes[dir - 1], w.nodes[dir - 1])
  }

  /** Why rm can refuse: the name is not one, is not bound, or not to a removable file. */
  ghost predicate Removable(v: Vol, filetype: bool, dir: nat, name: seq<Byte>)
    requires v.Shape() && DirAt(v, filetype, dir)
  {
    ValidName(name) && name in DirMap(v, filetype, dir) &&
    var n := DirMap(v, filetype, dir)[name].ino;
    n >= v.geo.firstInode && v.Live(n) && IsFile(v.nodes[n - 1])
  }

  /** The byte that a record of inode `n` should hold: 1 for a file, 2 for a directory, 0 without
      the feature. */
  function KindCode(v: Vol, filetype: bool, n: nat): Byte {
    if filetype && 1 <= n <= |v.nodes| then
      if v.nodes[n - 1].mode / 0x1000 % 16 == 8 then 1 else if v.nodes[n - 1].mode / 0x1000 % 16 == 4 then 2 else 0
    else 0
  }

  lemma KindCodeIs(v: Vol, filetype: bool, n: nat)
    requires 1 <= n <= |v.nodes|
    ensures IsFile(v.nodes[n - 1]) ==> KindCode(v, filetype, n) == if filetype then 1 else 0
    ensures IsDir(v.nodes[n - 1]) ==> KindCode(v, filetype, n) == if filetype then 2 else 0
  {
  }

  /** Why mv can refuse. */
  ghost predicate Renamable(v: Vol, filetype: bool, dir: nat, source: seq<Byte>, destination: seq<Byte>)
    requires v.Shape() && DirAt(v, filetype, dir)
  {
    ValidName(source) && ValidName(destination) && source in DirMap(v, filetype, dir) && destination !in DirMap(v, filetype, dir) &&
    var n := DirMap(v, filetype, dir)[source].ino;
    v.Live(n) && (IsFile(v.nodes[n - 1]) || IsDir(v.nodes[n - 1]))
  }

  /** The group of inode `n` counts one directory more, and no descriptor differs otherwise. */
  predicate OneDirMore(geo: Geometry, before: seq<Group>, after: seq<Group>, n: nat) {
    geo.inodesPerGroup > 0 && n > 0 &&
    var g := (n - 1) / geo.inodesPerGroup;
    g < |before| && after == before[g := before[g].(dirs := before[g].dirs + 1)]
  }

  /** What mv promises: the binding of one name is that of another, with the type byte of what it names. */
  ghost predicate Renamed(v: Vol, w: Vol, filetype: bool, dir: nat, source: seq<Byte>, destination: seq<Byte>) {
    && v.Shape() && DirAt(v, filetype, dir) && w.Ok({}) && Others(v, w, dir) && DirAt(w, filetype, dir)
    && |v.nodes| == |w.nodes| && 1 <= dir <= |v.nodes| && SameMeta(v.nodes[dir - 1], w.nodes[dir - 1])
    && source in DirMap(v, filetype, dir) && destination !in DirMap(v, filetype, dir)
    && DirMap(w, filetype, dir) ==
       (DirMap(v, filetype, dir) - {source})
       [destination := Binding(DirMap(v, filetype, dir)[source].ino, KindCode(v, filetype, DirMap(v, filetype, dir)[source].ino))]
  }

  class Engine {
    const vol: Volume
    const filetype: bool
    var cwd: nat

    /** The state engine_init leaves: a mounted volume, in its root directory. */
    constructor (vol: Volume, filetype: bool)
      ensures this.vol == vol && this.filetype == filetype && cwd == 2
    {
      this.vol, this.filetype, cwd := vol, filetype, ROOT_INO;
    }

    ghost function V(): Vol
      reads vol
    {
      vol.V()
    }

    /** The blocks of a directory, as lookup and insert walk them. */
    method DirData(dir: nat) returns (blocks: seq<Block>)
      requires V().Shape() && Passes(V(), dir, DIR_MODE)
      ensures 1 <= dir <= |vol.nodes| && vol.nodes[dir - 1].size <= MAX_FILE && blocks == DirBlocks(V(), dir)
    {
      hide DirOk, Raw, TablesOk, GroupSize, Ptr, InodeUsed, FileBlock, Mapped, Passes, IsDir, DirBlock;
      PassesRange(V(), dir);
      blocks := [];
      for i := 0 to vol.nodes[dir - 1].size / BLOCK
        invariant blocks == DirBlocks(V(), dir)[..i]
      {
        PassesHas(V(), dir, i);
        blocks := blocks + [vol.data[FileBlock(vol.nodes, vol.data, dir, i)]];
      }
    }

    /** lookup(): -2 for an inode that supported() refuses; in a well-formed directory the map's
        answer, and where it is recorded. */
    method Find(dir: nat, name: seq<Byte>) returns (r: int, at: nat, off: nat)
      requires V().Shape()
      ensures r == -2 || r == -1 || r > 0
      ensures !Passes(V(), dir, DIR_MODE) ==> r == -2
      ensures V().Ok({}) && DirAt(V(), filetype, dir) ==>
        && Passes(V(), dir, DIR_MODE) && r != -2 && (r == -1 <==> name !in DirMap(V(), filetype, dir))
        && (r > 0 ==> DirMap(V(), filetype, dir)[name].ino == r && at < |DirBlocks(V(), dir)|
                      && Here(FormatOf(V(), filetype), DirBlocks(V(), dir)[at], off, r, name))
    {
      hide Distinct, Entries, Tiled, Raw, TablesOk, GroupSize, Ptr, FileBlock, Vol.Owned, Vol.PoolsOk, Vol.Counted, Plain, Mapped, DirBlocks, Here, Passes, IsDir;
      if V().Ok({}) && DirAt(V(), filetype, dir) {
        DirPasses(V(), filetype, dir);
      }
      var known := NamesDirectory(dir);
      if !known {
        return -2, 0, 0;
      }
      var blocks := DirData(dir);
      r, at, off := Lookup(Format(filetype, |vol.nodes|), blocks, name);
    }

    /** insert(): one more binding, or nothing changed, or a volume spoilt. */
    method Insert(dir: nat, name: seq<Byte>, ino: nat, kind: Byte) returns (r: int)
      requires V().Ok({}) && DirAt(V(), filetype, dir) && |name| <= MAX_NAME && 0 < ino <= |vol.nodes|
      modifies vol`blocks, vol`data, vol`nodes, vol`owner
      ensures r == 0 || r == -1
      ensures r == -1 <==> name in old(DirMap(V(), filetype, dir)) || Stuck(old(V()), filetype, Listing(old(V()), filetype, dir), name, 0)
      ensures r == -1 ==> V() == old(V())
      ensures r == 0 ==> vol.blocks.free + Growth(old(V()), filetype, Listing(old(V()), filetype, dir), name) == old(vol.blocks.free)
      ensures r == 0 && Overgrows(old(V()), filetype, dir, Listing(old(V()), filetype, dir), name, 0) ==> Spoilt(V(), dir)
      ensures r == 0 && !Overgrows(old(V()), filetype, dir, Listing(old(V()), filetype, dir), name, 0) ==>
        Bound(old(V()), V(), filetype, dir, name, Binding(ino, if filetype then kind else 0))
    {
      hide DirOk, Dir, Raw, TablesOk, GroupSize, Ptr, InodeUsed, FileBlock, Vol.Owned, Vol.PoolsOk, Vol.Counted, Mapped, Here, Others, Kept, Tiled, Fits, Inserted, Roomy, Record, Need, Repointed, DirBlocks, Passes, Full, Bound;
      ghost var v := V();
      var known, _, _ := Find(dir, name);
      if known != -1 {
        return -1;
      }
      var f := Format(filetype, |vol.nodes|);
      var blocks := DirData(dir);
      DirTiled(f, blocks);
      var room, at, off := FindRoom(f, blocks, Need(|name|));
      if room == 0 {
        RoomAt(f, blocks, at, off, name);
        var c := Inserted(f, blocks[at], off, name, ino, kind);
        DirInserted(f, blocks, at, off, name, ino, kind);
        DirPoked(v, filetype, dir, at, c);
        vol.data := vol.data[FileBlock(vol.nodes, vol.data, dir, at) := c];
        BoundBy(v, V(), filetype, dir, name, Binding(ino, Code(f, kind)));
        return 0;
      }
      NoRoomIs(f, blocks, name);
      if vol.nodes[dir - 1].size / BLOCK == DIRECT {
        return -1;
      }
      r := Grow(dir, name, ino, kind, blocks);
    }

    /** Its last part: a new block for the directory. */
    method Grow(dir: nat, name: seq<Byte>, ino: nat, kind: Byte, ghost blocks: seq<Block>) returns (r: int)
      requires V().Ok({}) && DirAt(V(), filetype, dir) && |name| <= MAX_NAME && 0 < ino <= |vol.nodes|
      requires blocks == DirBlocks(V(), dir) && |blocks| < DIRECT && name !in DirMap(V(), filetype, dir)
      modifies vol`blocks, vol`data, vol`nodes, vol`owner
      ensures r == if old(vol.blocks.free) == 0 then -1 else 0
      ensures r == 0 ==> vol.blocks.free + 1 == old(vol.blocks.free)
      ensures r == -1 ==> V() == old(V())
      ensures r == 0 && !HoleAt(old(V()), dir, |blocks|) ==> Spoilt(V(), dir)
      ensures r == 0 && HoleAt(old(V()), dir, |blocks|) ==> Bound(old(V()), V(), filetype, dir, name, Binding(ino, if filetype then kind else 0))
    {
      hide DirOk, Dir, Raw, TablesOk, GroupSize, Ptr, InodeUsed, FileBlock, Vol.Owned, Vol.PoolsOk, Vol.Counted, Mapped, Others, Record, DirBlocks, Bound, Growing, Growable, Grew, Spoilt, HoleAt, Handed, Plain;
      ghost var v := V();
      DirLive(v, filetype, dir);
      var count := vol.nodes[dir - 1].size / BLOCK;
      var b := vol.AllocateBlock();
      if b == 0 {
        return -1;
      }
      var c := Record(Format(filetype, |vol.nodes|), ino, BLOCK, name, kind);
      ghost var v1 := V();
      DirGrown(FormatOf(v, filetype), blocks, c, name, ino, kind);
      GrowStart(v, v1, filetype, dir, count, b, c);
      var node := vol.nodes[dir - 1];
      vol.nodes := vol.nodes[dir - 1 := node.(ptr := node.ptr[count := b], size := (count + 1) * BLOCK, sectors := node.sectors + 2)];
      vol.data := vol.data[b := c];
      if HoleAt(v, dir, count) {
        vol.owner := vol.owner[b := Slot(dir, count)];
        GrownOk(v, v1, filetype, dir, count, b, c);
        BoundByGrowth(v, V(), filetype, dir, name, Binding(ino, if filetype then kind else 0), c);
      } else {
        OverwrittenSpoils(v, v1, dir, count, b, c);
      }
      r := 0;
    }

    /** inode(n) and supported(node, FILE_MODE). */
    method NamesFile(n: nat) returns (r: bool)
      requires V().Shape()
      ensures r <==> Passes(V(), n, FILE_MODE)
      ensures V().Ok({}) ==> (r <==> V().Live(n) && IsFile(vol.nodes[n - 1]))
    {
      hide Vol.PoolsOk, Vol.Owned, Vol.Counted, TablesOk, IsFile, CountPtrs, BlocksGood, GroupSize;
      if n == 0 || n > |vol.nodes| || !InodeUsed(vol.geo, vol.inodes, n) {
        return false;
      }
      r := Supported(vol, n, FILE_MODE);
      if V().Ok({}) {
        PassesExactly(V(), n, FILE_MODE);
      }
    }

    /** inode(n) and supported(node, DIR_MODE). */
    method NamesDirectory(n: nat) returns (r: bool)
      requires V().Shape()
      ensures r <==> Passes(V(), n, DIR_MODE)
      ensures V().Ok({}) ==> (r <==> V().Live(n) && IsDir(vol.nodes[n - 1]))
    {
      hide Vol.PoolsOk, Vol.Owned, Vol.Counted, TablesOk, IsDir, CountPtrs, BlocksGood, GroupSize;
      if n == 0 || n > |vol.nodes| || !InodeUsed(vol.geo, vol.inodes, n) {
        return false;
      }
      r := Supported(vol, n, DIR_MODE);
      if V().Ok({}) {
        PassesExactly(V(), n, DIR_MODE);
      }
    }

    /** create(name, FILE_MODE): the inode first, then the name. */
    method CreateFile(name: seq<Byte>) returns (r: int, ghost n: nat)
      requires V().Ok({}) && DirAt(V(), filetype, cwd)
      modifies vol`blocks, vol`data, vol`nodes, vol`owner, vol`inodes
      ensures r == 0 || r == -1
      ensures r == -1 <==> Uncreatable(old(V()), filetype, cwd, name)
      ensures r == -1 ==> V().Ok({})
      ensures r == 0 ==> vol.blocks.free + Growth(old(V()), filetype, Listing(old(V()), filetype, cwd), name) == old(vol.blocks.free)
      ensures r == 0 && Overgrows(old(V()), filetype, cwd, Listing(old(V()), filetype, cwd), name, 0) ==> Spoilt(V(), cwd)
      ensures r == 0 && !Overgrows(old(V()), filetype, cwd, Listing(old(V()), filetype, cwd), name, 0) ==>
        && V().Ok({}) && Created(old(V()), V(), filetype, cwd, name, n) && OwnedBy(vol.owner, n) == {}
        && IsFile(vol.nodes[n - 1]) && vol.nodes[n - 1].links == 1 && vol.nodes[n - 1].mode == 0x81A4 && Exactly(V(), n, [])
    {
      hide Listing, Growth, Blank, DirOk, Dir, Raw, TablesOk, GroupSize, Ptr, InodeUsed, FileBlock, Vol.Owned, Vol.PoolsOk, Vol.Counted, Mapped, Here, Others, Kept, DirBlocks, Files, Created, DirAt, DirMap, Exactly, Same, IsFile, SameMeta, Stuck, Overgrows, Passes, Spoilt, Bound;
      n := 0;
      ghost var v := V();
      var known, _, _ := Find(cwd, name);
      if !ValidName(name) || known != -1 {
        return -1, 0;
      }
      var ino := vol.AllocateInode();
      if ino == 0 {
        return -1, 0;
      }
      n := ino;
      ghost var v1 := V();
      var node := BlankNode(0, 0, 0).(mode := 0x81A4, links := 1);
      CreateSteps(v, v1, v1.(nodes := v1.nodes[ino - 1 := node]), v1, filetype, cwd, name, ino, node);
      vol.nodes := vol.nodes[ino - 1 := node];
      ghost var v2 := V();
      assert v2 == v1.(nodes := v1.nodes[ino - 1 := node]);
      FilesFrame(v, v2, {n});
      StuckBefore(v, v2, filetype, cwd, name, n);
      r := Insert(cwd, name, ino, 1);
      if r == 0 && !Overgrows(v, filetype, cwd, Listing(v, filetype, cwd), name, 0) {
        BoundParts(v2, V(), filetype, cwd, name, Binding(ino, if filetype then 1 else 0));
        DirLive(v, filetype, cwd);
        OthersFrame(v2, V(), cwd);
        CreatedFrom(v, v2, V(), filetype, cwd, name, ino);
        ExactSame(v2, V(), ino, []);
        SameNode(v2, V(), ino);
        NewFile(node, vol.nodes[ino - 1]);
        assert Blank(v2.nodes[ino - 1]) by { BlankStays(node, BlankNode(0, 0, 0)); }
        NothingOwned(v2, V(), cwd, ino);
      }
    }

    /** write_file: afterwards the name is bound to a file with exactly these bytes. */
    method WriteNamed(name: seq<Byte>, bytes: seq<Byte>) returns (r: int, ghost n: nat)
      requires V().Ok({}) && DirAt(V(), filetype, cwd)
      modifies vol`blocks, vol`data, vol`nodes, vol`owner, vol`inodes
      ensures r == 0 || r == -1
      ensures r == -1 <==> Unwritable(old(V()), filetype, cwd, name, |bytes|)
      ensures r == 0 ==> V().Ok({}) && Stored(old(V()), V(), filetype, cwd, name, bytes, n)
      ensures r == -1 ==> V().Shape() && V().PoolsOk()
    {
      hide Listing, DirOk, Dir, Raw, TablesOk, GroupSize, Ptr, InodeUsed, FileBlock, Vol.Owned, Vol.PoolsOk, Vol.Counted, Mapped, Here, Others, Kept, DirBlocks, Files, Created, DirAt, DirMap, Exactly, Same, Stored, Pool.Ok, IsFile, Passes, Overgrows, Uncreatable, Growth, BlocksFor, OwnedBy;
      ghost var v := V();
      if |bytes| > MAX_FILE || !ValidName(name) {
        return -1, 0;
      }
      var known, _, _ := Find(cwd, name);
      ghost var created := known == -1;
      if known == -1 {
        r, n := CreateFile(name);
        if r != 0 {
          return -1, 0;
        }
        if !Overgrows(v, filetype, cwd, Listing(v, filetype, cwd), name, 0) {
          CreatedDir(v, V(), filetype, cwd, name, n);
        }
        var at: nat, off: nat;
        known, at, off := Find(cwd, name);
      }
      if known <= 0 {
        return -1, 0;
      }
      var isFile := NamesFile(known);
      if !isFile {
        return -1, 0;
      }
      n := known;
      ghost var v1 := V();
      r := vol.WriteFile(known, bytes);
      if r == 0 {
        DirLive(v, filetype, cwd);
        OthersFrame(v1, V(), known);
        StoredSteps(v, v1, V(), filetype, cwd, name, bytes, n, created);
      }
    }

    /** begin(), write_file, finish(): on failure everything is as it was. A directory grown over
        a mapped block is a failure here, because the new name is looked up again. */
    method Write(name: seq<Byte>, bytes: seq<Byte>) returns (r: int, ghost n: nat)
      requires V().Ok({}) && DirAt(V(), filetype, cwd)
      modifies vol
      ensures r == 0 || r == -1
      ensures V().Ok({})
      ensures r == -1 <==> Unwritable(old(V()), filetype, cwd, name, |bytes|)
      ensures r == 0 ==> Stored(old(V()), V(), filetype, cwd, name, bytes, n)
      ensures r != 0 ==> V() == Rolled(old(V()), vol.blocks.hint, vol.inodes.hint)
      ensures Tidy(old(V()), filetype, cwd) ==> Tidy(V(), filetype, cwd)
    {
      hide Tidy, Vol.Ok, Vol.PoolsOk, DirAt, DirMap, Stored, Unwritable, TablesOk, GroupSize;
      vol.Begin();
      ghost var v := V();
      r, n := WriteNamed(name, bytes);
      OkPools(V());
      SafeRollback(v, V());
      r := vol.Finish(r);
      if r == 0 {
        StoredTidy(v, V(), filetype, cwd, name, bytes, n);
      } else {
        TidyRolled(v, filetype, cwd, vol.blocks.hint, vol.inodes.hint);
      }
    }

    /** engine_touch. */
    method Touch(name: seq<Byte>) returns (r: int, ghost n: nat)
      requires V().Ok({}) && DirAt(V(), filetype, cwd)
      modifies vol
      ensures r == 0 || r == -1
      ensures r == -1 <==> Uncreatable(old(V()), filetype, cwd, name)
      ensures r == 0 && Overgrows(old(V()), filetype, cwd, Listing(old(V()), filetype, cwd), name, 0) ==> Spoilt(V(), cwd)
      ensures r == 0 && !Overgrows(old(V()), filetype, cwd, Listing(old(V()), filetype, cwd), name, 0) ==>
        && V().Ok({}) && ValidName(name) && Created(old(V()), V(), filetype, cwd, name, n) && Exactly(V(), n, [])
        && IsFile(vol.nodes[n - 1]) && vol.nodes[n - 1].links == 1 && vol.nodes[n - 1].mode == 0x81A4
      ensures r != 0 ==> V().Ok({}) && V() == Rolled(old(V()), vol.blocks.hint, vol.inodes.hint)
      ensures Tidy(old(V()), filetype, cwd) ==> Spoilt(V(), cwd) || Tidy(V(), filetype, cwd)
    {
      hide Tidy, Listing, Vol.Ok, Vol.PoolsOk, DirAt, DirMap, DirBlocks, Created, Exactly, TablesOk, GroupSize, Overgrows, Stuck, Spoilt;
      vol.Begin();
      ghost var v := V();
      r, n := CreateFile(name);
      OkPools(V());
      SpoiltPools(V(), cwd);
      SafeRollback(v, V());
      r := vol.Finish(r);
      if r != 0 {
        TidyRolled(v, filetype, cwd, vol.blocks.hint, vol.inodes.hint);
      } else if !Overgrows(v, filetype, cwd, Listing(v, filetype, cwd), name, 0) {
        CreatedTidy(v, V(), filetype, cwd, name, n);
      }
    }

    /** engine_mkdir. */
    method Mkdir(name: seq<Byte>) returns (r: int, ghost n: nat)
      requires V().Ok({}) && DirAt(V(), filetype, cwd)
      modifies vol
      ensures r == 0 || r == -1
      ensures r == -1 <==> Unmakeable(old(V()), filetype, cwd, name)
      ensures r == 0 && Overgrows(old(V()), filetype, cwd, Listing(old(V()), filetype, cwd), name, 1) ==> Spoilt(V(), cwd)
      ensures r == 0 && !Overgrows(old(V()), filetype, cwd, Listing(old(V()), filetype, cwd), name, 1) ==>
        V().Ok({}) && ValidName(name) && Made(old(V()), V(), filetype, cwd, name, n)
      ensures r != 0 ==> V().Ok({}) && V() == Rolled(old(V()), vol.blocks.hint, vol.inodes.hint)
      ensures Tidy(old(V()), filetype, cwd) ==> Spoilt(V(), cwd) || Tidy(V(), filetype, cwd)
      ensures Tidy(old(V()), filetype, cwd) && r == 0 ==> Spoilt(V(), cwd) || Tidy(V(), filetype, n)
      ensures r == 0 ==> OneDirMore(vol.geo, old(vol.groups), vol.groups, n)
    {
      hide Tidy, Listing, Vol.Ok, Vol.PoolsOk, DirAt, DirMap, DirBlocks, Made, TablesOk, GroupSize, Overgrows, Stuck, Spoilt;
      vol.Begin();
      ghost var v := V();
      r, n := MakeDirectory(name);
      OkPools(V());
      SpoiltPools(V(), cwd);
      SafeRollback(v, V());
      r := vol.Finish(r);
      if r != 0 {
        TidyRolled(v, filetype, cwd, vol.blocks.hint, vol.inodes.hint);
      } else if !Overgrows(v, filetype, cwd, Listing(v, filetype, cwd), name, 1) {
        MadeTidy(v, V(), filetype, cwd, name, n);
      }
    }

    /** The record of a name is taken out of its directory. */
    method Erase(name: seq<Byte>, n: nat, at: nat, off: nat)
      requires V().Ok({}) && Recorded(V(), filetype, cwd, name, n, at, off)
      modifies vol`data
      ensures V().Ok({}) && Erased(old(V()), V(), filetype, cwd, name)
      ensures Listing(V(), filetype, cwd) == Without(Listing(old(V()), filetype, cwd), at, off)
    {
      hide DirOk, Dir, Raw, TablesOk, GroupSize, Ptr, InodeUsed, FileBlock, Vol.Owned, Vol.PoolsOk, Vol.Counted, Mapped, DirBlocks, Removed, Others, Plain;
      ghost var v := V();
      var b := FileBlock(vol.nodes, vol.data, cwd, at);
      DirHas(v, filetype, cwd, at);
      ghost var f, blocks := FormatOf(v, filetype), DirBlocks(v, cwd);
      var c := Removed(vol.data[b], off);
      DirRemoved(f, blocks, at, off, n, name);
      DirPoked(v, filetype, cwd, at, c);
      vol.data := vol.data[b := c];
    }

    /** remove_node(name, FILE_MODE): the name goes, and with the last name the file. */
    method RemoveFile(name: seq<Byte>, now: nat) returns (r: int, ghost n: nat)
      requires V().Ok({}) && DirAt(V(), filetype, cwd)
      modifies vol`blocks, vol`data, vol`nodes, vol`owner, vol`inodes
      ensures r == 0 || r == -1
      ensures V().Ok({})
      ensures r == -1 ==> V() == old(V())
      ensures r == 0 <==> Removable(old(V()), filetype, cwd, name)
      ensures r == 0 ==> Unlinked(old(V()), V(), filetype, cwd, name, n)
      ensures r == 0 && !V().Live(n) ==> 1 <= n <= |vol.nodes| && vol.nodes[n - 1].deleted == if now <= |vol.nodes| then |vol.nodes| + 1 else now
    {
      hide DirOk, Dir, Raw, TablesOk, GroupSize, Ptr, InodeUsed, FileBlock, Vol.Owned, Vol.PoolsOk, Vol.Counted, Mapped, Others, DirBlocks, Files, DirAt, DirMap, Same, Unlinked, Pool.Ok, Here, Wiped, IsFile;
      ghost var v := V();
      var known, at, off := Find(cwd, name);
      if !ValidName(name) || known < geo().firstInode {
        return -1, 0;
      }
      var isFile := NamesFile(known);
      if !isFile {
        return -1, 0;
      }
      n := known;
      Erase(name, known, at, off);
      ghost var v1 := V();
      UnlinkStart(v, v1, filetype, cwd, n);
      var links := vol.nodes[known - 1].links - 1;
      var node := vol.nodes[known - 1].(links := links);
      NodeStep(v1, known, node);
      vol.nodes := vol.nodes[known - 1 := node];
      ghost var v2 := V();
      assert v2 == v1.(nodes := v1.nodes[known - 1 := node]);
      UnlinkNode(v, v1, v2, filetype, cwd, name, n);
      if links == 0 {
        vol.TruncateBlocks(known, 0);
        ghost var v3 := V();
        AllHoles(v3, known);
        vol.ReleaseInode(known, Max(now, |vol.nodes| + 1));
        UnlinkLast(v, v2, v3, V(), filetype, cwd, name, n);
      }
      return 0, n;
    }

    function geo(): Geometry {
      vol.geo
    }

    method Remove(name: seq<Byte>, now: nat) returns (r: int, ghost n: nat)
      requires V().Ok({}) && DirAt(V(), filetype, cwd)
      modifies vol
      ensures r == 0 || r == -1
      ensures V().Ok({})
      ensures r == 0 <==> Removable(old(V()), filetype, cwd, name)
      ensures r == 0 ==> Unlinked(old(V()), V(), filetype, cwd, name, n)
      ensures r == 0 && !V().Live(n) ==> 1 <= n <= |vol.nodes| && vol.nodes[n - 1].deleted == if now <= |vol.nodes| then |vol.nodes| + 1 else now
      ensures r != 0 ==> V() == Rolled(old(V()), vol.blocks.hint, vol.inodes.hint)
      ensures Tidy(old(V()), filetype, cwd) ==> Tidy(V(), filetype, cwd)
    {
      hide Tidy, Vol.Ok, DirAt, DirMap, Unlinked, TablesOk, GroupSize;
      vol.Begin();
      ghost var v := V();
      r, n := RemoveFile(name, now);
      OkPools(V());
      SafeRollback(v, V());
      r := vol.Finish(r);
      if r != 0 {
        TidyRolled(v, filetype, cwd, vol.blocks.hint, vol.inodes.hint);
      } else {
        UnlinkedTidy(v, V(), filetype, cwd, name, n);
      }
    }

    /** engine_mv: one binding moves to a new name, and nothing else changes; `at` and `off` are
        where the old name was recorded. */
    method Rename(source: seq<Byte>, destination: seq<Byte>) returns (r: int, ghost at: nat, ghost off: nat)
      requires V().Ok({}) && DirAt(V(), filetype, cwd)
      modifies vol
      ensures r == 0 || r == -1
      ensures Renamable(old(V()), filetype, cwd, source, destination) ==>
        Recorded(old(V()), filetype, cwd, source, old(DirMap(V(), filetype, cwd))[source].ino, at, off)
      ensures r == -1 <==> !Renamable(old(V()), filetype, cwd, source, destination)
                           || Stuck(old(V()), filetype, Without(Listing(old(V()), filetype, cwd), at, off), destination, 0)
      ensures r == 0 && Overgrows(old(V()), filetype, cwd, Without(Listing(old(V()), filetype, cwd), at, off), destination, 0) ==> Spoilt(V(), cwd)
      ensures r == 0 && !Overgrows(old(V()), filetype, cwd, Without(Listing(old(V()), filetype, cwd), at, off), destination, 0) ==>
        Renamed(old(V()), V(), filetype, cwd, source, destination)
      ensures r != 0 ==> V().Ok({}) && V() == Rolled(old(V()), vol.blocks.hint, vol.inodes.hint)
      ensures Tidy(old(V()), filetype, cwd) ==> Spoilt(V(), cwd) || Tidy(V(), filetype, cwd)
    {
      hide Tidy, Listing, Renamed, Renamable, Recorded, Vol.Ok, Vol.PoolsOk, DirAt, DirMap, DirBlocks, TablesOk, GroupSize, Overgrows, Stuck, Spoilt, Without;
      vol.Begin();
      ghost var v := V();
      r, at, off := MoveName(source, destination);
      RenamedOk(v, V(), filetype, cwd, source, destination);
      OkPools(V());
      SpoiltPools(V(), cwd);
      SafeRollback(v, V());
      r := vol.Finish(r);
      if r != 0 {
        TidyRolled(v, filetype, cwd, vol.blocks.hint, vol.inodes.hint);
      } else {
        RenamedTidy(v, V(), filetype, cwd, source, destination);
      }
    }

    /** Its body between begin() and finish(). */
    method MoveName(source: seq<Byte>, destination: seq<Byte>) returns (r: int, ghost at: nat, ghost off: nat)
      requires V().Ok({}) && DirAt(V(), filetype, cwd)
      modifies vol`blocks, vol`data, vol`nodes, vol`owner
      ensures r == 0 || r == -1
      ensures Renamable(old(V()), filetype, cwd, source, destination) ==>
        Recorded(old(V()), filetype, cwd, source, old(DirMap(V(), filetype, cwd))[source].ino, at, off)
      ensures r == -1 <==> !Renamable(old(V()), filetype, cwd, source, destination)
                           || Stuck(old(V()), filetype, Without(Listing(old(V()), filetype, cwd), at, off), destination, 0)
      ensures r == -1 ==> V().Ok({})
      ensures r == 0 && Overgrows(old(V()), filetype, cwd, Without(Listing(old(V()), filetype, cwd), at, off), destination, 0) ==> Spoilt(V(), cwd)
      ensures r == 0 && !Overgrows(old(V()), filetype, cwd, Without(Listing(old(V()), filetype, cwd), at, off), destination, 0) ==>
        Renamed(old(V()), V(), filetype, cwd, source, destination)
    {
      hide Listing, KindCode, DirOk, Dir, Raw, TablesOk, GroupSize, Ptr, InodeUsed, FileBlock, Vol.Owned, Vol.PoolsOk, Vol.Counted, Mapped, Others, DirBlocks, DirAt, DirMap, Pool.Ok, Here, IsFile, IsDir, Stuck, Overgrows, Passes, Spoilt, Bound, Without, Renamed;
      ghost var v := V();
      var known, i, o := Find(cwd, source);
      at, off := i, o;
      var isFile, isDir := false, false;
      if known > 0 && ValidName(source) && ValidName(destination) {
        isFile := NamesFile(known);
        if !isFile { isDir := NamesDirectory(known); }
      }
      if !isFile && !isDir {
        return -1, at, off;
      }
      KindCodeIs(v, filetype, known);
      var taken, at1, off1 := Find(cwd, destination);
      if taken != -1 {
        return -1, at, off;
      }
      Erase(source, known, i, o);
      ghost var v1 := V();
      ErasedRoom(v, v1, filetype, cwd, destination, Without(Listing(v, filetype, cwd), at, off));
      r := Insert(cwd, destination, known, if isDir then 2 else 1);
      if r == 0 && !Overgrows(v1, filetype, cwd, Listing(v1, filetype, cwd), destination, 0) {
        RenamedBy(v, v1, V(), filetype, cwd, source, destination, if !filetype then 0 else if isDir then 2 else 1);
      }
    }

    /** create(name, DIR_MODE): the inode, its block with "." and "..", the parent's link, the
        group's count, and the name. */
    method MakeDirectory(name: seq<Byte>) returns (r: int, ghost n: nat)
      requires V().Ok({}) && DirAt(V(), filetype, cwd)
      modifies vol`blocks, vol`data, vol`nodes, vol`owner, vol`inodes, vol`groups
      ensures r == 0 || r == -1
      ensures r == -1 <==> Unmakeable(old(V()), filetype, cwd, name)
      ensures |vol.groups| == old(|vol.groups|) && (r == -1 ==> V().Ok({}))
      ensures r == 0 && Overgrows(old(V()), filetype, cwd, Listing(old(V()), filetype, cwd), name, 1) ==> Spoilt(V(), cwd)
      ensures r == 0 && !Overgrows(old(V()), filetype, cwd, Listing(old(V()), filetype, cwd), name, 1) ==>
        V().Ok({}) && ValidName(name) && Made(old(V()), V(), filetype, cwd, name, n)
      ensures r == 0 ==> OneDirMore(vol.geo, old(vol.groups), vol.groups, n)
    {
      hide Listing, DirOk, Dir, Raw, TablesOk, GroupSize, Ptr, InodeUsed, FileBlock, Vol.Owned, Vol.PoolsOk, Vol.Counted, Mapped, Here, Others, Kept, DirBlocks, Files, Made, DirAt, DirMap, Exactly, Same, SameMeta, NewDirBlock, Repointed, Fillable, Plain, Blank, Overgrows, Stuck, Spoilt, Passes, New;
      n := 0;
      ghost var v := V();
      var known, _, _ := Find(cwd, name);
      if !ValidName(name) || known != -1 {
        return -1, 0;
      }
      var ino := vol.AllocateInode();
      if ino == 0 {
        return -1, 0;
      }
      n := ino;
      ghost var v1 := V();
      var node := BlankNode(0, 0, 0).(mode := 0x41ED, links := 2);
      CreateSteps(v, v1, v1.(nodes := v1.nodes[ino - 1 := node]), v1, filetype, cwd, name, ino, node);
      vol.nodes := vol.nodes[ino - 1 := node];
      ghost var v2 := V();
      assert v2 == v1.(nodes := v1.nodes[ino - 1 := node]);
      BlankNodePlain(v2, ino, node);
      var b := vol.Fill(Slot(ino, 0));
      if b == 0 {
        return -1, 0;
      }
      ghost var w := V();
      DirLive(v, filetype, cwd);
      FilesFrame(v, v2, {n});
      KeptFrame(v2, w, ino);
      NewBlockInRange(v2, w, ino, 0, b);
      var c := NewDirBlock(Format(filetype, |vol.nodes|), ino, cwd);
      NewDirLists(FormatOf(v2, filetype), ino, cwd);
      ghost var x := Sized(w.(data := w.data[b := c]), ino, BLOCK);
      FirstBlock(v2, w, x, filetype, ino, b, c);
      vol.data := vol.data[b := c];
      vol.nodes := vol.nodes[ino - 1 := vol.nodes[ino - 1].(size := BLOCK)];
      assert V() == x;
      MadeNew(v, v2, x, filetype, cwd, ino, c);
      r := LinkDirectory(name, ino, v);
    }

    /** The parent's side of mkdir: one more link, one more directory in the group, the name. */
    method LinkDirectory(name: seq<Byte>, ino: nat, ghost v: Vol) returns (r: int)
      requires V().Ok({}) && |name| <= MAX_NAME && New(v, V(), filetype, cwd, ino, 0) && !Names(v, filetype, cwd, name)
      modifies vol`blocks, vol`data, vol`nodes, vol`owner, vol`groups
      ensures r == 0 || r == -1
      ensures r == -1 <==> LinksFull(v, cwd) || Stuck(v, filetype, Listing(v, filetype, cwd), name, 1)
      ensures |vol.groups| == old(|vol.groups|) && (r == -1 ==> V().Ok({}))
      ensures r == 0 && Overgrows(v, filetype, cwd, Listing(v, filetype, cwd), name, 1) ==> Spoilt(V(), cwd)
      ensures r == 0 && !Overgrows(v, filetype, cwd, Listing(v, filetype, cwd), name, 1) ==>
        V().Ok({}) && Made(v, V(), filetype, cwd, name, ino)
      ensures r == 0 ==> OneDirMore(vol.geo, old(vol.groups), vol.groups, ino)
    {
      hide Listing, DirOk, Dir, Raw, TablesOk, GroupSize, Ptr, InodeUsed, FileBlock, Vol.Owned, Vol.PoolsOk, Vol.Counted, Mapped, Here, Others, Kept, DirBlocks, Files, Made, DirAt, DirMap, Same, SameMeta, New, Pool.Ok, Overgrows, Stuck, Spoilt, Bound;
      NewRange(v, V(), filetype, cwd, ino, 0);
      if vol.nodes[cwd - 1].links == 65535 {
        return -1;
      }
      LinkParent(ino, v);
      ghost var z := V();
      NewRange(v, z, filetype, cwd, ino, 1);
      NewRoom(v, z, filetype, cwd, ino, name);
      r := Insert(cwd, name, ino, 2);
      if r == 0 && !Overgrows(z, filetype, cwd, Listing(z, filetype, cwd), name, 0) {
        BoundParts(z, V(), filetype, cwd, name, Binding(ino, if filetype then 2 else 0));
        OthersFrame(z, V(), cwd);
        MadeNamed(v, z, V(), filetype, cwd, name, ino);
      }
    }

    method LinkParent(ino: nat, ghost v: Vol)
      requires V().Ok({}) && New(v, V(), filetype, cwd, ino, 0)
      modifies vol`nodes, vol`groups
      ensures V().Ok({}) && |vol.groups| == old(|vol.groups|)
      ensures New(v, V(), filetype, cwd, ino, 1)
      ensures OneDirMore(vol.geo, old(vol.groups), vol.groups, ino)
    {
      hide Listing, DirOk, Dir, Raw, TablesOk, GroupSize, Ptr, InodeUsed, FileBlock, Vol.Owned, Vol.PoolsOk, Vol.Counted, Mapped, Others, DirBlocks, Files, DirAt, DirMap, Same, New, Pool.Ok, SameRaw, SamePtrs;
      ghost var x := V();
      NewRange(v, x, filetype, cwd, ino, 0);
      var parent := vol.nodes[cwd - 1].(links := vol.nodes[cwd - 1].links + 1);
      NodeStep(x, cwd, parent);
      ghost var y := x.(nodes := x.nodes[cwd - 1 := parent]);
      NewLinked(v, x, y, filetype, cwd, ino);
      var g := (ino - 1) / vol.geo.inodesPerGroup;
      NewRange(v, y, filetype, cwd, ino, 1);
      GroupOfInode(y, ino);
      DirsStep(y, g, vol.groups[g].dirs + 1);
      NewCounted(v, y, y.(groups := y.groups[g := y.groups[g].(dirs := y.groups[g].dirs + 1)]), filetype, cwd, ino);
      vol.nodes, vol.groups := vol.nodes[cwd - 1 := parent], vol.groups[g := vol.groups[g].(dirs := vol.groups[g].dirs + 1)];
    }
  }

  /** A new directory `n` exists; its parent has gained `more` links and is not changed otherwise. */
  ghost predicate New(v: Vol, w: Vol, filetype: bool, dir: nat, n: nat, more: nat) {
    && v.Shape() && w.Shape() && |v.nodes| == |w.nodes| && v.geo == w.geo && DirAt(v, filetype, dir) && DirAt(w, filetype, dir) && DirAt(w, filetype, n)
    && n != dir && 1 <= dir <= |v.nodes| && 1 <= n <= |v.nodes| && !v.Live(n) && w.Live(n) && Files(v, w, {dir, n})
    && DirMap(w, filetype, dir) == DirMap(v, filetype, dir) && DirMap(w, filetype, n) == NewNames(filetype, n, dir)
    && w.nodes[n - 1].links == 2 && w.nodes[n - 1].mode == 0x41ED && w.nodes[dir - 1].links == v.nodes[dir - 1].links + more
    && SameRoom(v, w, dir, 1)
  }

  lemma BlankNodePlain(v: Vol, n: nat, node: Inode)
    requires v.Shape() && v.Live(n) && v.nodes[n - 1] == node && node == BlankNode(0, 0, 0).(mode := 0x41ED, links := 2)
    ensures Plain(v, n) && Fillable(v, Slot(n, 0)) && Kind(node.mode) == DIR_MODE
  {
    BlankPlain(v, n);
  }

  lemma MadeNew(v: Vol, v2: Vol, x: Vol, filetype: bool, dir: nat, n: nat, c: Block)
    requires v.Shape() && v2.Shape() && x.Shape() && 1 <= n <= |v.nodes| == |v2.nodes| == |x.nodes| && 1 <= dir <= |v.nodes|
    requires DirAt(v, filetype, dir) && DirAt(v2, filetype, dir) && DirMap(v2, filetype, dir) == DirMap(v, filetype, dir)
    requires !v.Live(n) && v2.Live(n) && n != dir && Files(v, v2, {n}) && Same(v, v2, dir) && Others(v2, x, n)
    requires DirAt(x, filetype, n) && DirBlocks(x, n) == [c] && DirOk(FormatOf(v2, filetype), [c])
    requires Dir(FormatOf(v2, filetype), [c]) == NewNames(filetype, n, dir)
    requires SameMeta(v2.nodes[n - 1], x.nodes[n - 1]) && v2.nodes[n - 1].links == 2 && v2.nodes[n - 1].mode == 0x41ED && x.blocks.free + 1 == v.blocks.free
    ensures New(v, x, filetype, dir, n, 0)
  {
    hide DirOk, Dir, Raw, TablesOk, GroupSize, Ptr, InodeUsed, Mapped, DirBlocks, DirAt, SameRaw, SamePtrs, Files, Others;
    OthersFiles(v2, x, n);
    OthersFrame(v2, x, n);
    FilesFrame(v, v2, {n});
    FilesChain(v, v2, x, {n}, {n});
    FilesWeaken(v, x, {n} + {n}, {dir, n});
    DirOutside(v2, x, filetype, dir, {n});
    KeepsRoom(v, x, filetype, dir, {n} + {n}, 1);
  }

  lemma NewRange(v: Vol, x: Vol, filetype: bool, dir: nat, n: nat, more: nat)
    requires New(v, x, filetype, dir, n, more)
    ensures |v.nodes| == |x.nodes| && 1 <= dir <= |x.nodes| && 1 <= n <= |x.nodes| && x.Live(dir) && x.Live(n)
    ensures v.Shape() && x.Shape() && DirAt(v, filetype, dir) && DirAt(x, filetype, dir) && DirMap(x, filetype, dir) == DirMap(v, filetype, dir)
    ensures x.nodes[dir - 1].links == v.nodes[dir - 1].links + more
  {
  }

  lemma NewRoom(v: Vol, x: Vol, filetype: bool, dir: nat, n: nat, name: seq<Byte>)
    requires New(v, x, filetype, dir, n, 1)
    ensures Stuck(v, filetype, Listing(v, filetype, dir), name, 1) <==> Stuck(x, filetype, Listing(x, filetype, dir), name, 0)
    ensures Overgrows(v, filetype, dir, Listing(v, filetype, dir), name, 1)
            <==> Overgrows(x, filetype, dir, Listing(x, filetype, dir), name, 0)
  {
    hide TablesOk, GroupSize, InodeUsed, Listing, DirAt, DirMap, SameRoom, Files, Stuck, Overgrows;
    StuckSame(v, x, filetype, dir, name, 1);
  }

  /** A directory keeps its names when only its link count grows. */
  lemma Relinked(x: Vol, y: Vol, filetype: bool, dir: nat, links: nat)
    requires x.Shape() && y.Shape() && DirAt(x, filetype, dir) && y == x.(nodes := x.nodes[dir - 1 := x.nodes[dir - 1].(links := links)])
    requires links > 0 && SameRaw(x, y, dir) && SamePtrs(x, y, dir) && y.Live(dir)
    ensures DirAt(y, filetype, dir) && DirMap(y, filetype, dir) == DirMap(x, filetype, dir)
  {
    hide DirOk, Dir, Raw, TablesOk, GroupSize, Ptr, InodeUsed, Mapped, DirBlocks, SameRaw;
    BlocksOf(x, y, dir);
    PlainSame(x, y, dir);
  }

  lemma BlocksOf(v: Vol, w: Vol, n: nat)
    requires v.Shape() && w.Shape() && 1 <= n <= |v.nodes| == |w.nodes| && SameRaw(v, w, n) && v.nodes[n - 1].size == w.nodes[n - 1].size <= MAX_FILE
    ensures DirBlocks(w, n) == DirBlocks(v, n)
  {
    hide Raw, TablesOk, GroupSize, DirBlock, SameRaw;
    forall i | 0 <= i < v.nodes[n - 1].size / BLOCK ensures DirBlock(w, n, i) == DirBlock(v, n, i) {
      SameBlock(v, w, n, i);
    }
  }

  lemma NewLinked(v: Vol, x: Vol, y: Vol, filetype: bool, dir: nat, n: nat)
    requires y.Shape() && New(v, x, filetype, dir, n, 0) && |x.nodes| == |y.nodes| && Others(x, y, dir) && SameRaw(x, y, dir) && SamePtrs(x, y, dir)
    requires y == x.(nodes := x.nodes[dir - 1 := x.nodes[dir - 1].(links := x.nodes[dir - 1].links + 1)])
    ensures New(v, y, filetype, dir, n, 1)
  {
    hide DirOk, Dir, Raw, TablesOk, GroupSize, Ptr, InodeUsed, Mapped, DirBlocks, DirAt, DirMap, SameRaw, SamePtrs, Files, Others;
    OthersFiles(x, y, dir);
    OthersFrame(x, y, dir);
    FilesChain(v, x, y, {dir, n}, {dir});
    assert {dir, n} + {dir} == {dir, n};
    DirOutside(x, y, filetype, n, {dir});
    DirLive(x, filetype, dir);
    Relinked(x, y, filetype, dir, x.nodes[dir - 1].links + 1);
    BlocksOf(x, y, dir);
    RoomChain(v, x, y, dir);
  }

  lemma RoomChain(v: Vol, x: Vol, y: Vol, dir: nat)
    requires v.Shape() && x.Shape() && y.Shape() && 1 <= dir <= |v.nodes| == |x.nodes| == |y.nodes|
    requires SameRoom(v, x, dir, 1) && SamePtrs(x, y, dir) && y.blocks.free == x.blocks.free
    requires x.nodes[dir - 1].size == y.nodes[dir - 1].size <= MAX_FILE && DirBlocks(y, dir) == DirBlocks(x, dir)
    ensures SameRoom(v, y, dir, 1)
  {
    hide TablesOk, GroupSize, DirBlocks, SamePtrs;
    PtrsChain(v, x, y, dir);
  }

  lemma GroupOfInode(v: Vol, n: nat)
    requires v.Shape() && v.Live(n)
    ensures (n - 1) / v.geo.inodesPerGroup < |v.groups|
  {
    hide TablesOk, GroupSize;
  }

  lemma NewCounted(v: Vol, y: Vol, z: Vol, filetype: bool, dir: nat, n: nat)
    requires z.Shape() && New(v, y, filetype, dir, n, 1) && y.nodes == z.nodes && y.geo == z.geo && y.blocks == z.blocks && Files(y, z, {})
    ensures New(v, z, filetype, dir, n, 1)
  {
    hide DirOk, Dir, Raw, TablesOk, GroupSize, Ptr, InodeUsed, Mapped, DirBlocks, DirAt, DirMap, SameRaw, SamePtrs, Files;
    FilesChain(v, y, z, {dir, n}, {});
    assert {dir, n} + {} == {dir, n};
    DirOutside(y, z, filetype, n, {});
    DirOutside(y, z, filetype, dir, {});
    LiveSame(y, z, n);
    KeepsRoom(y, z, filetype, dir, {}, 0);
    RoomChain(v, y, z, dir);
  }

  lemma LiveSame(v: Vol, w: Vol, n: nat)
    requires v.Shape() && w.Shape() && Files(v, w, {})
    ensures v.Live(n) <==> w.Live(n)
  {
  }

  lemma MadeNamed(v: Vol, z: Vol, w: Vol, filetype: bool, dir: nat, name: seq<Byte>, n: nat)
    requires w.Shape() && New(v, z, filetype, dir, n, 1) && |w.nodes| == |z.nodes| && Others(z, w, dir) && DirAt(w, filetype, dir)
    requires name !in DirMap(z, filetype, dir) && DirMap(w, filetype, dir) == DirMap(z, filetype, dir)[name := Binding(n, if filetype then 2 else 0)]
    requires SameMeta(z.nodes[dir - 1], w.nodes[dir - 1])
    ensures Made(v, w, filetype, dir, name, n)
  {
    hide DirOk, Dir, Raw, TablesOk, GroupSize, Ptr, InodeUsed, Mapped, DirBlocks, DirAt, DirMap, SameRaw, SamePtrs, Files, Others;
    OthersFiles(z, w, dir);
    OthersFrame(z, w, dir);
    FilesChain(v, z, w, {dir, n}, {dir});
    assert {dir, n} + {dir} == {dir, n};
    DirOutside(z, w, filetype, n, {dir});
  }

  /** What mkdir promises. */
  ghost predicate Made(v: Vol, w: Vol, filetype: bool, dir: nat, name: seq<Byte>, n: nat) {
    && v.Shape() && w.Shape() && |v.nodes| == |w.nodes| && DirAt(v, filetype, dir) && DirAt(w, filetype, dir) && DirAt(w, filetype, n)
    && 1 <= dir <= |v.nodes| && n != dir && !v.Live(n) && w.Live(n) && Files(v, w, {dir, n})
    && name !in DirMap(v, filetype, dir) && DirMap(w, filetype, dir) == DirMap(v, filetype, dir)[name := Binding(n, if filetype then 2 else 0)]
    && DirMap(w, filetype, n) == NewNames(filetype, n, dir)
    && w.nodes[dir - 1].links == v.nodes[dir - 1].links + 1 && w.nodes[n - 1].links == 2 && w.nodes[n - 1].mode == 0x41ED
  }

  /** A failed operation can be rolled back: hints are in range, and restoring is consistent. */
  lemma SafeRollback(v: Vol, w: Vol)
    requires v.Ok({}) && w.Shape() && w.PoolsOk() && |v.groups| == |w.groups|
    ensures w.blocks.hint < |v.blocks.bits| && w.inodes.hint < |v.inodes.bits|
    ensures Rolled(v, w.blocks.hint, w.inodes.hint).Ok({})
  {
    PoolHints(w);
    hide Vol.Ok, Vol.Shape, Vol.PoolsOk, Rolled;
    HintsInRange(v);
    RolledOk(v, w.blocks.hint, w.inodes.hint, 0);
  }

  lemma PoolHints(w: Vol)
    requires w.Shape() && w.PoolsOk()
    ensures w.blocks.hint < |w.groups| && w.inodes.hint < |w.groups|
  {
    hide TablesOk, GroupSize, DataBlock;
  }

  lemma OkPools(w: Vol)
    ensures w.Ok({}) ==> w.Shape() && w.PoolsOk()
  {
    hide Vol.Shape, Vol.PoolsOk, Vol.Owned;
  }

  lemma SpoiltPools(w: Vol, n: nat)
    ensures Spoilt(w, n) ==> w.Shape() && w.PoolsOk()
  {
    hide Vol.Shape, Vol.PoolsOk, Lost, Passes;
  }

  /** The blocks of a directory once the record at `off` of block `at` was cleared. */
  function Without(blocks: seq<Block>, at: nat, off: nat): seq<Block> {
    if at < |blocks| && off + 8 <= BLOCK then blocks[at := Removed(blocks[at], off)] else blocks
  }

  lemma ErasedRoom(v: Vol, w: Vol, filetype: bool, dir: nat, name: seq<Byte>, blocks: seq<Block>)
    requires v.Shape() && w.Shape() && w.nodes == v.nodes && w.blocks == v.blocks
    ensures Stuck(v, filetype, blocks, name, 0) <==> Stuck(w, filetype, blocks, name, 0)
    ensures Overgrows(v, filetype, dir, blocks, name, 0) <==> Overgrows(w, filetype, dir, blocks, name, 0)
  {
    hide Full, TablesOk, GroupSize, Load32;
  }

  lemma PassesRange(v: Vol, n: nat)
    requires v.Shape() && Passes(v, n, DIR_MODE)
    ensures 1 <= n <= |v.nodes| && v.nodes[n - 1].size <= MAX_FILE
  {
    hide TablesOk, GroupSize, BlocksGood, CountPtrs;
  }

  /** A directory that supported() accepts has its blocks. */
  lemma PassesHas(v: Vol, n: nat, i: nat)
    requires v.Shape() && Passes(v, n, DIR_MODE) && v.nodes[n - 1].size <= MAX_FILE && i < v.nodes[n - 1].size / BLOCK
    ensures i < FILE_BLOCKS && 0 < FileBlock(v.nodes, v.data, n, i) < |v.data|
    ensures DirBlocks(v, n)[i] == v.data[FileBlock(v.nodes, v.data, n, i)]
  {
    hide GroupSize, BackupGroup, Load32, CountPtrs, Mapped, DirBlock;
    var k := SlotOf(n, i).k;
    assert FileBlock(v.nodes, v.data, n, i) == Ptr(v.nodes, v.data, Slot(n, k)) == v.nodes[n - 1].ptr[i] != 0;
    DirBlockIs(v, n, i);
  }

  /** supported() accepts a well-formed directory of a consistent volume. */
  lemma DirPasses(v: Vol, filetype: bool, n: nat)
    requires v.Ok({}) && DirAt(v, filetype, n)
    ensures Passes(v, n, DIR_MODE)
  {
    DirIsDir(v, filetype, n);
    hide Vol.Ok, Vol.Shape, DirBlocks, Passes, IsDir, DirOk, Plain;
    PassesExactly(v, n, DIR_MODE);
  }

  lemma DirIsDir(v: Vol, filetype: bool, n: nat)
    requires v.Ok({}) && DirAt(v, filetype, n)
    ensures v.Live(n) && IsDir(v.nodes[n - 1])
  {
    hide Vol.Owned, Vol.PoolsOk, Vol.Counted, GroupSize, DirBlock, Entries, Distinct, Tiled, InodeUsed, Load32;
    var node := v.nodes[n - 1];
    forall i | 0 <= i < node.size / BLOCK ensures node.ptr[i] != 0 {
      DirHas(v, filetype, n, i);
      assert FileBlock(v.nodes, v.data, n, i) == node.ptr[i];
    }
    assert |DirBlocks(v, n)| == node.size / BLOCK > 0;
  }

  lemma RoomAt(f: Format, blocks: seq<Block>, at: nat, off: nat, name: seq<Byte>)
    requires AllTiled(f, blocks) && at < |blocks| && off <= BLOCK && |name| < 256
    requires Fits(f, blocks[at], off, Need(|name|)) && Tiled(f, blocks[at], 0, off)
    ensures !Full(f, blocks, name)
  {
    hide Tiled, Fits, Need, Roomy;
    RoomyFrom(f, blocks[at], 0, off, Need(|name|));
  }

  /** A record with room makes its block roomy. */
  lemma {:induction false} RoomyFrom(f: Format, b: Block, start: nat, off: nat, need: nat)
    requires start <= off <= BLOCK && Tiled(f, b, start, off) && Tiled(f, b, start, BLOCK) && Fits(f, b, off, need)
    ensures Roomy(f, b, start, need)
    decreases off - start
  {
    hide RecLen, Ino, Used;
    if start < off {
      RoomyFrom(f, b, start + RecLen(b, start), off, need);
    }
  }

  lemma NoRoomIs(f: Format, blocks: seq<Block>, name: seq<Byte>)
    requires AllTiled(f, blocks) && |name| < 256 && forall i :: 0 <= i < |blocks| ==> !Roomy(f, blocks[i], 0, Need(|name|))
    ensures Full(f, blocks, name)
  {
    hide Tiled, Roomy, Need;
  }

  lemma BoundBy(v: Vol, w: Vol, filetype: bool, dir: nat, name: seq<Byte>, b: Binding)
    requires v.Shape() && DirAt(v, filetype, dir) && w.Ok({}) && Others(v, w, dir) && DirAt(w, filetype, dir) && w.nodes == v.nodes
    requires name !in DirMap(v, filetype, dir) && DirOk(FormatOf(v, filetype), DirBlocks(w, dir))
    requires Dir(FormatOf(v, filetype), DirBlocks(w, dir)) == DirMap(v, filetype, dir)[name := b]
    ensures Bound(v, w, filetype, dir, name, b)
  {
    hide DirOk, Dir, Raw, TablesOk, GroupSize, Ptr, InodeUsed, Mapped, DirBlocks, Others, Plain, Vol.Owned, Vol.PoolsOk, Vol.Counted;
  }

  lemma BoundByGrowth(v: Vol, x: Vol, filetype: bool, dir: nat, name: seq<Byte>, b: Binding, c: Block)
    requires Grew(v, x, filetype, dir, c) && v.Shape() && DirAt(v, filetype, dir) && name !in DirMap(v, filetype, dir)
    requires DirOk(FormatOf(v, filetype), DirBlocks(v, dir) + [c])
    requires Dir(FormatOf(v, filetype), DirBlocks(v, dir) + [c]) == DirMap(v, filetype, dir)[name := b]
    ensures Bound(v, x, filetype, dir, name, b)
  {
    hide DirOk, Dir, Raw, TablesOk, GroupSize, Ptr, InodeUsed, Mapped, DirBlocks, Plain, Vol.Owned, Vol.PoolsOk, Vol.Counted, SameRaw, SamePtrs, DirAt;
  }

  lemma BoundParts(v: Vol, w: Vol, filetype: bool, dir: nat, name: seq<Byte>, b: Binding)
    requires Bound(v, w, filetype, dir, name, b)
    ensures v.Shape() && DirAt(v, filetype, dir) && w.Ok({}) && w.Shape() && Others(v, w, dir) && DirAt(w, filetype, dir)
    ensures name !in DirMap(v, filetype, dir) && DirMap(w, filetype, dir) == DirMap(v, filetype, dir)[name := b]
    ensures 1 <= dir <= |v.nodes| == |w.nodes| && SameMeta(v.nodes[dir - 1], w.nodes[dir - 1])
  {
    hide DirOk, Dir, Raw, TablesOk, GroupSize, Ptr, InodeUsed, Mapped, DirBlocks, Plain, Vol.Owned, Vol.PoolsOk, Vol.Counted, SameRaw, SamePtrs;
  }

  lemma GrowStart(v: Vol, v1: Vol, filetype: bool, dir: nat, count: nat, b: nat, c: Block)
    requires v.Ok({}) && DirAt(v, filetype, dir) && Handed(v, v1, b) && b != 0 && count == v.nodes[dir - 1].size / BLOCK < DIRECT
    requires DirOk(FormatOf(v, filetype), DirBlocks(v, dir) + [c])
    ensures Growing(v, v1, dir, count, b) && Growable(v, filetype, dir, count, c)
    ensures 1 <= dir <= |v1.nodes| && |v1.nodes[dir - 1].ptr| == 13 && b < |v1.data|
  {
    hide DirOk, DirBlocks, GroupSize, Ptr, InodeUsed, Vol.Owned, Vol.PoolsOk, Vol.Counted;
  }

  /** Record `off` of block `at` of a directory binds `name` to `n`. */
  ghost predicate Recorded(v: Vol, filetype: bool, dir: nat, name: seq<Byte>, n: nat, at: nat, off: nat) {
    && v.Shape() && DirAt(v, filetype, dir)
    && at < |DirBlocks(v, dir)| && Here(FormatOf(v, filetype), DirBlocks(v, dir)[at], off, n, name)
  }

  /** One binding less, in one directory. */
  ghost predicate Erased(v: Vol, w: Vol, filetype: bool, dir: nat, name: seq<Byte>) {
    && v.Shape() && w.Shape() && Others(v, w, dir) && DirAt(v, filetype, dir) && DirAt(w, filetype, dir)
    && DirMap(w, filetype, dir) == DirMap(v, filetype, dir) - {name}
  }

  /** The name is gone, and nothing but its directory and its inode is touched. */
  ghost predicate Unnamed(v: Vol, w: Vol, filetype: bool, dir: nat, name: seq<Byte>, n: nat)
    requires v.Shape() && w.Shape() && DirAt(v, filetype, dir)
  {
    && name in DirMap(v, filetype, dir) && DirMap(v, filetype, dir)[name].ino == n
    && DirAt(w, filetype, dir) && DirMap(w, filetype, dir) == DirMap(v, filetype, dir) - {name}
    && n != dir && v.Live(n) && IsFile(v.nodes[n - 1]) && Files(v, w, {dir, n})
    && SameMeta(v.nodes[dir - 1], w.nodes[dir - 1])
  }

  /** What rm promises: one name less; without its last name the file is gone. */
  ghost predicate Unlinked(v: Vol, w: Vol, filetype: bool, dir: nat, name: seq<Byte>, n: nat)
    requires v.Shape() && w.Shape() && DirAt(v, filetype, dir)
  {
    && Unnamed(v, w, filetype, dir, name, n)
    && if v.nodes[n - 1].links == 1 then !w.Live(n)
       else w.Live(n) && w.nodes[n - 1].links == v.nodes[n - 1].links - 1 && w.nodes[n - 1].mode == v.nodes[n - 1].mode
            && w.nodes[n - 1].size == v.nodes[n - 1].size && SameRaw(v, w, n)
  }

  lemma UnlinkStart(v: Vol, v1: Vol, filetype: bool, dir: nat, n: nat)
    requires v.Shape() && v1.Shape() && DirAt(v, filetype, dir) && v.Live(n) && IsFile(v.nodes[n - 1]) && Others(v, v1, dir)
    ensures n != dir && v1.Live(n) && Same(v, v1, n) && 1 <= dir <= |v.nodes| == |v1.nodes| && v.nodes[n - 1].links > 0
  {
    hide Raw, TablesOk, GroupSize, Ptr, InodeUsed, SameRaw, SamePtrs, SameMeta;
  }

  lemma UnlinkNode(v: Vol, v1: Vol, v2: Vol, filetype: bool, dir: nat, name: seq<Byte>, n: nat)
    requires v.Shape() && v1.Shape() && v2.Shape() && 1 <= n <= |v.nodes| == |v1.nodes| == |v2.nodes| && 1 <= dir <= |v.nodes|
    requires DirAt(v, filetype, dir) && DirAt(v1, filetype, dir) && v.Live(n) && IsFile(v.nodes[n - 1])
    requires name in DirMap(v, filetype, dir) && DirMap(v, filetype, dir)[name].ino == n
    requires DirMap(v1, filetype, dir) == DirMap(v, filetype, dir) - {name}
    requires Others(v, v1, dir) && Others(v1, v2, n) && v1.nodes == v.nodes && v1.nodes[n - 1].links > 0
    requires v2.nodes[n - 1] == v1.nodes[n - 1].(links := v1.nodes[n - 1].links - 1) && SameRaw(v1, v2, n)
    ensures Unnamed(v, v2, filetype, dir, name, n) && v2.Live(n)
    ensures v.nodes[n - 1].links != 1 ==> Unlinked(v, v2, filetype, dir, name, n)
  {
    hide Raw, TablesOk, GroupSize, Ptr, InodeUsed, SameRaw, SamePtrs, DirAt, DirMap, Files, Others;
    DirLive(v, filetype, dir);
    UnlinkStart(v, v1, filetype, dir, n);
    OthersFiles(v, v1, dir);
    OthersFiles(v1, v2, n);
    OthersFrame(v1, v2, n);
    FilesChain(v, v1, v2, {dir}, {n});
    assert {dir} + {n} == {dir, n};
    DirOutside(v1, v2, filetype, dir, {n});
    RawChain(v, v1, v2, n);
  }

  lemma AllHoles(v: Vol, n: nat)
    requires TablesOk(v.nodes, v.data) && 1 <= n <= |v.nodes| && v.nodes[n - 1].ptr[INDIRECT_SLOT] == 0
    requires forall j :: 0 <= j < FILE_BLOCKS ==> FileBlock(v.nodes, v.data, n, j) == 0
    ensures forall k :: 0 <= k < SLOTS ==> Ptr(v.nodes, v.data, Slot(n, k)) == 0
  {
    hide Ptr, TablesOk;
    IndirectPtr(v.nodes, v.data, n);
    forall k | 0 <= k < SLOTS ensures Ptr(v.nodes, v.data, Slot(n, k)) == 0 {
      if k != INDIRECT_SLOT {
        var j := if k < DIRECT then k else k - 1;
        assert FileBlock(v.nodes, v.data, n, j) == 0;
        assert SlotOf(n, j) == Slot(n, k);
      }
    }
  }

  lemma UnlinkLast(v: Vol, v2: Vol, v3: Vol, v4: Vol, filetype: bool, dir: nat, name: seq<Byte>, n: nat)
    requires v.Shape() && v2.Shape() && v3.Shape() && v4.Shape()
    requires 1 <= n <= |v.nodes| == |v2.nodes| == |v3.nodes| == |v4.nodes| && 1 <= dir <= |v.nodes| && v.nodes[n - 1].links == 1
    requires DirAt(v, filetype, dir) && Unnamed(v, v2, filetype, dir, name, n)
    requires Others(v2, v3, n) && Files(v3, v4, {n}) && !v4.Live(n)
    ensures Unlinked(v, v4, filetype, dir, name, n)
  {
    hide Raw, TablesOk, GroupSize, Ptr, InodeUsed, SameRaw, SamePtrs, DirAt, DirMap, Files, Others;
    OthersFiles(v2, v3, n);
    FilesChain(v2, v3, v4, {n}, {n});
    FilesChain(v, v2, v4, {dir, n}, {n} + {n});
    assert {dir, n} + ({n} + {n}) == {dir, n} && {n} + {n} == {n};
    DirOutside(v2, v4, filetype, dir, {n});
  }

  /** What write_file promises. */
  ghost predicate Stored(v: Vol, w: Vol, filetype: bool, dir: nat, name: seq<Byte>, bytes: seq<Byte>, n: nat)
    requires v.Shape() && w.Shape() && DirAt(v, filetype, dir)
  {
    && ValidName(name) && |bytes| <= MAX_FILE
    && w.Live(n) && n != dir && Exactly(w, n, bytes) && IsFile(w.nodes[n - 1])
    && DirAt(w, filetype, dir)
    && DirMap(w, filetype, dir) == (if name in DirMap(v, filetype, dir) then DirMap(v, filetype, dir)
                                     else DirMap(v, filetype, dir)[name := Binding(n, if filetype then 1 else 0)])
    && Files(v, w, {dir, n}) && SameMeta(v.nodes[dir - 1], w.nodes[dir - 1])
    && (name in DirMap(v, filetype, dir) ==> DirMap(v, filetype, dir)[name].ino == n && v.Live(n) && SameMeta(v.nodes[n - 1], w.nodes[n - 1]))
    && (name !in DirMap(v, filetype, dir) ==> !v.Live(n) && n >= v.geo.firstInode && w.nodes[n - 1].links == 1 && w.nodes[n - 1].mode == 0x81A4)
  }

  /** write_file's last step, on an old file or on the one just created. */
  lemma StoredSteps(v: Vol, v1: Vol, w: Vol, filetype: bool, dir: nat, name: seq<Byte>, bytes: seq<Byte>, n: nat, created: bool)
    requires v.Shape() && v1.Shape() && w.Shape() && 1 <= n <= |v1.nodes| == |w.nodes| == |v.nodes| && 1 <= dir <= |v.nodes|
    requires DirAt(v, filetype, dir) && DirAt(v1, filetype, dir) && ValidName(name) && |bytes| <= MAX_FILE
    requires v1.Live(n) && IsFile(v1.nodes[n - 1]) && Others(v1, w, n) && SameMeta(v1.nodes[n - 1], w.nodes[n - 1])
    requires Exactly(w, n, bytes)
    requires name in DirMap(v1, filetype, dir) && DirMap(v1, filetype, dir)[name].ino == n
    requires created ==> Created(v, v1, filetype, dir, name, n) && v1.nodes[n - 1].links == 1 && v1.nodes[n - 1].mode == 0x81A4
    requires !created ==> v1 == v
    ensures Stored(v, w, filetype, dir, name, bytes, n)
  {
    hide DirOk, Dir, Raw, TablesOk, GroupSize, Ptr, InodeUsed, Mapped, DirBlocks, DirAt, DirMap, SameRaw, SamePtrs, Files, Others;
    DirLive(v1, filetype, dir);
    OthersFiles(v1, w, n);
    OthersFrame(v1, w, n);
    DirOutside(v1, w, filetype, dir, {n});
    if created {
      FilesChain(v, v1, w, {dir, n}, {n});
      assert {dir, n} + {n} == {dir, n};
    } else {
      FilesWeaken(v, w, {n}, {dir, n});
    }
  }

  lemma CreatedDir(v: Vol, w: Vol, filetype: bool, dir: nat, name: seq<Byte>, n: nat)
    requires v.Shape() && w.Shape() && DirAt(v, filetype, dir) && Created(v, w, filetype, dir, name, n)
    ensures DirAt(w, filetype, dir) && name in DirMap(w, filetype, dir) && DirMap(w, filetype, dir)[name].ino == n
    ensures |v.nodes| == |w.nodes| && w.Live(n)
  {
  }

  lemma BlankStays(node: Inode, blank: Inode)
    requires Blank(blank) && node.ptr == blank.ptr && node.sectors == blank.sectors
    ensures Blank(node)
  {
  }

  /** A blank inode that was left alone owns no block. */
  lemma NothingOwned(v: Vol, w: Vol, dir: nat, n: nat)
    requires v.Shape() && w.Ok({}) && Others(v, w, dir) && n != dir && v.Live(n) && Blank(v.nodes[n - 1])
    ensures OwnedBy(w.owner, n) == {}
  {
    hide GroupSize, InodeUsed, DataBlock, BlockUsed, Vol.PoolsOk, Vol.Owned, Vol.Counted, Load32, SameRaw, CountPtrs, OwnedBy;
    assert SamePtrs(v, w, n);
    CountUpTo(w, n, SLOTS, 0);
    CountOwned(w, n, SLOTS);
    AllBelow(w, n);
  }

  lemma NewFile(node: Inode, now: Inode)
    requires node == BlankNode(0, 0, 0).(mode := 0x81A4, links := 1) && SameMeta(node, now) && now.size == 0
    ensures IsFile(now) && now.links == 1 && now.mode == 0x81A4
  {
  }

  lemma SameNode(v: Vol, w: Vol, n: nat)
    requires v.Shape() && w.Shape() && 1 <= n <= |v.nodes| == |w.nodes| && Same(v, w, n)
    ensures SameMeta(v.nodes[n - 1], w.nodes[n - 1]) && v.nodes[n - 1].size == w.nodes[n - 1].size
  {
  }

  lemma DirTiled(f: Format, blocks: seq<Block>)
    requires DirOk(f, blocks)
    ensures AllTiled(f, blocks)
  {
  }

  lemma NewBlockInRange(v: Vol, w: Vol, n: nat, count: nat, b: nat)
    requires v.Shape() && w.Ok({}) && v.geo == w.geo && |v.nodes| == |w.nodes| && v.Live(n) && w.Live(n) && count < DIRECT && SameFrame(v, w) && Repointed(v, w, Slot(n, count), b) && b != 0
    ensures 0 < b < |w.data|
  {
    hide Raw, TablesOk, GroupSize, Ptr, InodeUsed, FileBlock, Vol.Owned, Vol.PoolsOk, Vol.Counted, Repointed;
    FilledIs(v, w, n, count, b);
    FileOwned(w, {}, n, count);
  }

  // ------------------------------------------------------------ tidy directories stay tidy

  lemma RenamedBy(v: Vol, v1: Vol, w: Vol, filetype: bool, dir: nat, source: seq<Byte>, destination: seq<Byte>, code: Byte)
    requires v.Shape() && Erased(v, v1, filetype, dir, source) && v1.nodes == v.nodes && source in DirMap(v, filetype, dir)
    requires var n := DirMap(v, filetype, dir)[source].ino;
      Bound(v1, w, filetype, dir, destination, Binding(n, code)) && KindCode(v, filetype, n) == code
    requires destination !in DirMap(v, filetype, dir)
    ensures Renamed(v, w, filetype, dir, source, destination)
  {
    hide DirAt, DirMap, TablesOk, GroupSize, Others, KindCode, Vol.PoolsOk, Vol.Owned, Vol.Counted;
    BoundParts(v1, w, filetype, dir, destination, Binding(DirMap(v, filetype, dir)[source].ino, code));
    OthersChain(v, v1, w, dir);
  }

  lemma RenamedOk(v: Vol, w: Vol, filetype: bool, dir: nat, source: seq<Byte>, destination: seq<Byte>)
    ensures Renamed(v, w, filetype, dir, source, destination) ==> w.Ok({})
  {
    hide DirAt, DirMap, TablesOk, GroupSize, Others, KindCode, Vol.PoolsOk, Vol.Owned, Vol.Counted;
  }

  lemma TidyRolled(v: Vol, filetype: bool, dir: nat, blockHint: nat, inodeHint: nat)
    requires v.Ok({}) && Rolled(v, blockHint, inodeHint).Ok({})
    ensures Tidy(v, filetype, dir) ==> Tidy(Rolled(v, blockHint, inodeHint), filetype, dir)
  {
    hide TablesOk, GroupSize, Vol.Owned, Vol.PoolsOk, Vol.Counted, DirAt, DirMap, Rolled, TidyNames, Files;
    if Tidy(v, filetype, dir) {
      var w := Rolled(v, blockHint, inodeHint);
      RolledFiles(v, blockHint, inodeHint);
      DirOutside(v, w, filetype, dir, {});
      TidySame(v, w, filetype, dir, DirMap(v, filetype, dir));
    }
  }

  lemma RolledFiles(v: Vol, blockHint: nat, inodeHint: nat)
    requires v.Ok({}) && Rolled(v, blockHint, inodeHint).Ok({})
    ensures Files(v, Rolled(v, blockHint, inodeHint), {}) && Heirs(v, Rolled(v, blockHint, inodeHint), 0)
  {
    hide TablesOk, GroupSize, Vol.Owned, Vol.PoolsOk, Vol.Counted, Same, SamePtrs, Ptr;
    var w := Rolled(v, blockHint, inodeHint);
    forall m: nat | v.Live(m) ensures Same(v, w, m) && SamePtrs(v, w, m) {
      SameTables(v, w, m);
    }
  }

  /** What an operation on some inodes leaves to the others. */
  lemma FilesHeirs(v: Vol, w: Vol, dir: nat, n: nat)
    requires v.Shape() && w.Shape() && Files(v, w, {dir, n}) && 1 <= dir <= |v.nodes| == |w.nodes|
    requires v.Live(dir) && w.Live(dir) && SameKind(v.nodes[dir - 1].mode, w.nodes[dir - 1].mode) && w.nodes[dir - 1].links >= v.nodes[dir - 1].links
    ensures Heirs(v, w, n)
  {
    hide TablesOk, GroupSize, InodeUsed, SameRaw, SamePtrs;
    forall m: nat | v.Live(m) && m != n
      ensures w.Live(m) && SameKind(v.nodes[m - 1].mode, w.nodes[m - 1].mode) && w.nodes[m - 1].links >= v.nodes[m - 1].links
    {
      if m != dir {
        FilesSame(v, w, {dir, n}, m);
      }
    }
  }

  lemma CreatedTidy(v: Vol, w: Vol, filetype: bool, dir: nat, name: seq<Byte>, n: nat)
    requires v.Ok({}) && w.Ok({}) && DirAt(v, filetype, dir) && Created(v, w, filetype, dir, name, n) && ValidName(name)
    requires IsFile(w.nodes[n - 1]) && w.nodes[n - 1].links == 1
    ensures Tidy(v, filetype, dir) ==> Tidy(w, filetype, dir)
  {
    hide DirOk, Dir, TablesOk, GroupSize, InodeUsed, DirBlocks, Plain, WellNamed, SameRaw, SamePtrs, Vol.PoolsOk, Vol.Owned, Vol.Counted;
    FilesHeirs(v, w, dir, n);
    if Tidy(v, filetype, dir) {
      TidyAdded(v, w, filetype, dir, DirMap(v, filetype, dir), name, Binding(n, if filetype then 1 else 0));
    }
  }

  lemma MadeTidy(v: Vol, w: Vol, filetype: bool, dir: nat, name: seq<Byte>, n: nat)
    requires Made(v, w, filetype, dir, name, n) && ValidName(name)
    ensures Tidy(v, filetype, dir) ==> Tidy(w, filetype, dir) && Tidy(w, filetype, n)
  {
    hide DirOk, Dir, TablesOk, GroupSize, InodeUsed, DirBlocks, Plain, Files, WellNamed;
    FilesHeirs(v, w, dir, n);
    if Tidy(v, filetype, dir) {
      TidyAdded(v, w, filetype, dir, DirMap(v, filetype, dir), name, Binding(n, if filetype then 2 else 0));
      TidyNew(w, filetype, n, dir);
    }
  }

  lemma UnlinkedDir(v: Vol, w: Vol, filetype: bool, dir: nat, name: seq<Byte>, n: nat)
    requires v.Shape() && w.Shape() && DirAt(v, filetype, dir) && Unlinked(v, w, filetype, dir, name, n)
    ensures DirAt(w, filetype, dir) && |v.nodes| == |w.nodes| && v.Live(dir) && w.Live(dir)
    ensures 1 <= dir <= |v.nodes| && SameMeta(v.nodes[dir - 1], w.nodes[dir - 1])
    ensures DirMap(w, filetype, dir) == DirMap(v, filetype, dir) - {name}
  {
    hide DirOk, Dir, TablesOk, GroupSize, InodeUsed, DirBlocks, Plain, IsFile, SameRaw, SamePtrs, Same;
  }

  lemma UnlinkedTidy(v: Vol, w: Vol, filetype: bool, dir: nat, name: seq<Byte>, n: nat)
    requires v.Ok({}) && w.Ok({}) && DirAt(v, filetype, dir) && Unlinked(v, w, filetype, dir, name, n) && ValidName(name)
    ensures Tidy(v, filetype, dir) ==> Tidy(w, filetype, dir)
  {
    hide DirOk, Dir, TablesOk, GroupSize, InodeUsed, DirBlocks, Plain, WellNamed, IsFile, SameRaw, SamePtrs, Same, Files, DirAt, DirMap, Vol.PoolsOk, Vol.Owned, Vol.Counted, Vol.Live;
    UnlinkedDir(v, w, filetype, dir, name, n);
    FilesHeirs(v, w, dir, n);
    if Tidy(v, filetype, dir) {
      TidyRemoved(v, w, filetype, dir, DirMap(v, filetype, dir), name);
    }
  }

  lemma StoredTidy(v: Vol, w: Vol, filetype: bool, dir: nat, name: seq<Byte>, bytes: seq<Byte>, n: nat)
    requires v.Ok({}) && w.Ok({}) && DirAt(v, filetype, dir) && Stored(v, w, filetype, dir, name, bytes, n)
    ensures Tidy(v, filetype, dir) ==> Tidy(w, filetype, dir)
  {
    hide DirOk, Dir, TablesOk, GroupSize, InodeUsed, DirBlocks, Plain, WellNamed, Exactly, SameRaw, SamePtrs, Vol.PoolsOk, Vol.Owned, Vol.Counted;
    FilesHeirs(v, w, dir, n);
    if Tidy(v, filetype, dir) {
      if name in DirMap(v, filetype, dir) {
        TidySame(v, w, filetype, dir, DirMap(v, filetype, dir));
      } else {
        TidyAdded(v, w, filetype, dir, DirMap(v, filetype, dir), name, Binding(n, if filetype then 1 else 0));
      }
    }
  }

  lemma RenamedTidy(v: Vol, w: Vol, filetype: bool, dir: nat, source: seq<Byte>, destination: seq<Byte>)
    requires v.Ok({}) && DirAt(v, filetype, dir) && Renamable(v, filetype, dir, source, destination)
    ensures Renamed(v, w, filetype, dir, source, destination) && Tidy(v, filetype, dir) ==> Tidy(w, filetype, dir)
  {
    hide DirOk, Dir, TablesOk, GroupSize, InodeUsed, DirBlocks, Plain, WellNamed, IsFile, IsDir, SameRaw, SamePtrs, DirAt, DirMap, Vol.PoolsOk, Vol.Owned, Vol.Counted;
    if Renamed(v, w, filetype, dir, source, destination) && Tidy(v, filetype, dir) {
      var n := DirMap(v, filetype, dir)[source].ino;
      OthersHeirs(v, w, dir);
      TidyMoved(v, w, filetype, dir, DirMap(v, filetype, dir), source, destination, Binding(n, KindCode(v, filetype, n)));
    }
  }

  lemma OthersHeirs(v: Vol, w: Vol, dir: nat)
    requires v.Shape() && w.Shape() && Others(v, w, dir) && 1 <= dir <= |v.nodes| == |w.nodes| && SameMeta(v.nodes[dir - 1], w.nodes[dir - 1])
    ensures Heirs(v, w, 0)
  {
    hide TablesOk, GroupSize, SameRaw, SamePtrs;
    forall m: nat | v.Live(m)
      ensures w.Live(m) && SameKind(v.nodes[m - 1].mode, w.nodes[m - 1].mode) && w.nodes[m - 1].links >= v.nodes[m - 1].links
    {
    }
  }

  /** Which names the engine accepts. */
  lemma ValidNameMeans(name: seq<Byte>)
    ensures ValidName(name) <==> 1 <= |name| <= 23 && (forall i :: 0 <= i < |name| ==> name[i] != 47) && name != [46] && name != [46, 46]
  {
  }
}
