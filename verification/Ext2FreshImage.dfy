/** The bytes of the small formatted volume. */
module Ext2FreshImage {
  import opened Bytes
  import opened Ext2Pools
  import opened Ext2Layout
  import opened Ext2Steps
  import opened Ext2Directory
  import opened Ext2Tree
  import opened Ext2Dirs
  import opened Ext2Fresh
  import opened Ext2Mount
  import opened Ext2Image
  import opened Ext2Remount

  const PLAN: Plan := Plan(GEO, 128, 1)

  function Super(): seq<Byte> {
    Put32(Put32(Zeros(BLOCK), 12, 8), 16, 6)
  }

  function Table(): seq<Byte> {
    Put16(Put16(Put16(Put32(Put32(Put32(Zeros(BLOCK), 0, 3), 4, 4), 8, 5), 12, 8), 14, 6), 16, 1)
  }

  function RootBytes(): (r: seq<Byte>)
    ensures |r| == BLOCK
  {
    Put32(Put32(Put32(Put16(Put16(Zeros(BLOCK), 128, 0x41ED), 128 + 26, 2), 128 + 4, BLOCK), 128 + 28, 2), 128 + 40, ROOT_BLOCK)
  }

  function BlockBytes(b: nat): (r: seq<Byte>)
    ensures |r| == BLOCK
  {
    if b == 3 then Zeros(BLOCK)[0 := 127]
    else if b == 4 then Zeros(BLOCK)[0 := 255][1 := 3]
    else if b == 5 then RootBytes()
    else if b == ROOT_BLOCK then NewDirBlock(Format(true, 16), ROOT, ROOT)
    else ZeroBlock()
  }

  function FreshBytes(): Raw {
    Raw(Super(), Table(), seq(16, b requires 0 <= b < 16 => BlockBytes(b)))
  }

  // ------------------------------------------------------------ reading them

  lemma {:induction false} Ones(m: nat, j: nat)
    ensures Pow2(m) >= 1 && BitOf(Pow2(m) - 1, j) == (j < m)
  {
    if m > 0 && j > 0 {
      Ones(m - 1, j - 1);
    } else if j > 0 {
      Ones(0, j - 1);
    } else if m > 0 {
      Ones(m - 1, 0);
    }
  }

  lemma BlockBits()
    ensures BitsAt(BlockBytes(3), 15) == Taken(15, 7)
  {
    assert Pow2(7) == 128 by { ByteWidth(); }
    forall i | 0 <= i < 15 ensures Bit(BlockBytes(3), i) == (i < 7) {
      Ones(7, i % 8);
      Ones(0, i % 8);
    }
  }

  lemma InodeBits()
    ensures BitsAt(BlockBytes(4), 16) == Taken(16, 10)
  {
    ByteWidth();
    assert Pow2(2) == 4;
    forall i | 0 <= i < 16 ensures Bit(BlockBytes(4), i) == (i < 10) {
      Ones(8, i % 8);
      Ones(2, i % 8);
    }
  }

  lemma RootReads()
    ensures NodeAt(RootBytes(), 128) == Root()
  {
    hide Put16, Put32, Get16, Get32, NodeAt;
    var s0 := Zeros(BLOCK);
    var s1 := Put16(s0, 128, 0x41ED);
    var s2 := Put16(s1, 128 + 26, 2);
    var s3 := Put32(s2, 128 + 4, BLOCK);
    var s4 := Put32(s3, 128 + 28, 2);
    ZeroNode(s0, 128);
    NodePut16(s0, 128, 0, 0x41ED);
    NodePut16(s1, 128, 26, 2);
    NodePut32(s2, 128, 4, BLOCK);
    NodePut32(s3, 128, 28, 2);
    NodePutPointer(s4, 128, 0, ROOT_BLOCK);
  }

  lemma ZeroNode(s: seq<Byte>, at: nat)
    requires at + NODE_END <= |s| && forall i :: at <= i < at + NODE_END ==> s[i] == 0
    ensures NodeAt(s, at) == BlankNode(0, 0, 0)
  {
    hide Get16, Get32;
    ZeroFields(s, at, at);
    ZeroFields(s, at, at + 4);
    ZeroFields(s, at, at + 20);
    ZeroFields(s, at, at + 26);
    ZeroFields(s, at, at + 28);
    var p := NodeAt(s, at).ptr;
    forall k | 0 <= k < 13 ensures p[k] == 0 {
      ZeroFields(s, at, at + 40 + 4 * k);
    }
    assert p == [0, 0, 0, 0, 0, 0, 0, 0, 0, 0, 0, 0, 0];
  }

  lemma ZeroFields(s: seq<Byte>, at: nat, field: nat)
    requires at + NODE_END <= |s| && (forall i :: at <= i < at + NODE_END ==> s[i] == 0) && at <= field
    ensures field + 4 <= at + NODE_END ==> Get32(s, field) == 0
    ensures field + 2 <= at + NODE_END ==> Get16(s, field) == 0
  {
  }

  /** Around the root's inode the table is blank. */
  lemma RootAlone(i: nat)
    requires i < BLOCK && !(128 <= i < 256)
    ensures RootBytes()[i] == 0
  {
    hide Put16, Put32;
    var s0 := Zeros(BLOCK);
    var s1 := Put16(s0, 128, 0x41ED);
    var s2 := Put16(s1, 128 + 26, 2);
    var s3 := Put32(s2, 128 + 4, BLOCK);
    var s4 := Put32(s3, 128 + 28, 2);
    PutOnly(s0, 128, 0x41ED);
    PutOnly(s1, 128 + 26, 2);
    PutOnly(s2, 128 + 4, BLOCK);
    PutOnly(s3, 128 + 28, 2);
    PutOnly(s4, 128 + 40, ROOT_BLOCK);
  }

  lemma PlanOk()
    ensures PLAN.Ok()
  {
  }

  lemma FreshNode(n: nat)
    requires 1 <= n <= 16
    ensures PLAN.Ok() && NodeBlock(PLAN, [GROUP], n) < 16
    ensures NodeAt(BlockBytes(NodeBlock(PLAN, [GROUP], n)), NodeOffset(PLAN, n)) == Nodes()[n - 1]
  {
    hide NodeAt, RootBytes, NodeBlock, NodeOffset, BlockBytes, Nodes;
    FreshPlace(n);
    if n == ROOT {
      RootReads();
    } else {
      FreshBlank(n);
    }
  }

  lemma FreshPlace(n: nat)
    requires 1 <= n <= 16
    ensures PLAN.Ok() && NodeBlock(PLAN, [GROUP], n) == 5 + (n - 1) / 8 < 16 && NodeOffset(PLAN, n) == (n - 1) % 8 * 128
    ensures BlockBytes(5) == RootBytes() && Nodes()[n - 1] == if n == ROOT then Root() else BlankNode(0, 0, 0)
  {
    assert NodeGroup(PLAN, n) == 0 && NodeIndex(PLAN, n) == n - 1;
  }

  lemma FreshBlank(n: nat)
    requires 1 <= n <= 16 && n != ROOT
    ensures NodeAt(BlockBytes(5 + (n - 1) / 8), (n - 1) % 8 * 128) == BlankNode(0, 0, 0)
  {
    hide NodeAt, RootBytes;
    var b, at := 5 + (n - 1) / 8, (n - 1) % 8 * 128;
    forall i | at <= i < at + NODE_END ensures BlockBytes(b)[i] == 0 {
      if b == 5 {
        RootAlone(i);
      }
    }
    ZeroNode(BlockBytes(b), at);
  }

  lemma TableReads()
    ensures GroupsAt(Table(), 1) == [GROUP] && Get16(Table(), 12) == 8 && Get16(Table(), 14) == 6 && |Table()| == BLOCK
  {
    hide Put16, Put32, Get16, Get32;
    var t1 := Put32(Zeros(BLOCK), 0, 3);
    var t2 := Put32(t1, 4, 4);
    var t3 := Put32(t2, 8, 5);
    var t4 := Put16(t3, 12, 8);
    var t5 := Put16(t4, 14, 6);
    PutGet32(Zeros(BLOCK), 0, 3);
    PutGet32(t1, 4, 4);
    PutGet32(t2, 8, 5);
    PutGet16(t3, 12, 8);
    PutGet16(t4, 14, 6);
    PutGet16(t5, 16, 1);
    PutOnly(t1, 4, 4);
    PutOnly(t2, 8, 5);
    PutOnly(t3, 12, 8);
    PutOnly(t4, 14, 6);
    PutOnly(t5, 16, 1);
    Apart32(t1, Table(), 0);
    Apart32(t2, Table(), 4);
    Apart32(t3, Table(), 8);
    Apart16(t4, Table(), 12);
    Apart16(t5, Table(), 14);
  }

  lemma SuperReads()
    ensures Get32(Super(), 12) == 8 && Get32(Super(), 16) == 6 && |Super()| == BLOCK
  {
    hide Put32, Get32;
    var s1 := Put32(Zeros(BLOCK), 12, 8);
    PutGet32(Zeros(BLOCK), 12, 8);
    PutGet32(s1, 16, 6);
    PutOnly(s1, 16, 6);
    Apart32(s1, Super(), 12);
  }

  lemma BytesAt(b: nat)
    ensures BlockAt(FreshBytes(), b) == if b < 16 then BlockBytes(b) else ZeroBlock()
  {
    hide BlockBytes;
  }

  /** They stand for that volume. */
  lemma FreshDecodes()
    ensures PLAN.Ok() && Decode(PLAN, FreshBytes(), (0, 0), map[ROOT_BLOCK := Slot(ROOT, 0)]) == Volume()
  {
    PlanOk();
    Ext2Fresh.Fits();
    TableReads();
    SuperReads();
    BlockBits();
    InodeBits();
    hide Super, Table, BlockBytes, NodeAt, NodeBlock, NodeOffset, BitsAt, Taken, Get16, Get32, GroupsAt, GroupSize, DataBlock, BlockAt, NewDirBlock, BackupGroup, FreshBytes;
    BytesParts();
    var raw := FreshBytes();
    BytesAt(3);
    BytesAt(4);
    assert BlockPool(PLAN, raw, [GROUP], 0) == Pool(8, [8], [Taken(15, 7)], 0);
    assert InodePool(PLAN, raw, [GROUP], 0) == Pool(6, [6], [Taken(16, 10)], 0);
    forall n | 0 <= n < 16 ensures NodesAt(PLAN, raw, [GROUP])[n] == Nodes()[n] {
      FreshNode(n + 1);
      BytesAt(NodeBlock(PLAN, [GROUP], n + 1));
    }
    assert NodesAt(PLAN, raw, [GROUP]) == Nodes();
    forall b | 0 <= b < 16 ensures DataAt(PLAN, raw, [GROUP])[b] == Data()[b] {
      FreshData(b);
      BytesAt(b);
      FreshBlock(b);
    }
    assert DataAt(PLAN, raw, [GROUP]) == Data();
  }

  lemma BytesParts()
    ensures FreshBytes().super == Super() && FreshBytes().table == Table() && |FreshBytes().blocks| == 16
  {
  }

  lemma FreshBlock(b: nat)
    requires b < 16
    ensures ROOT_BLOCK <= b ==> BlockBytes(b) == Data()[b]
    ensures b < ROOT_BLOCK ==> Data()[b] == ZeroBlock()
  {
    hide NewDirBlock;
  }

  /** So there is a disk that mounts and stands for a consistent volume. */
  lemma FreshSane()
    ensures Sane(PLAN, FreshBytes())
  {
    FreshDecodes();
    Formatted();
    Mounts();
    TableReads();
    SuperReads();
    BytesParts();
    hide FreshBytes, Volume, Vol.Ok, Decode, Laid, Super, Table;
    var owner: map<nat, Slot> := map[ROOT_BLOCK := Slot(ROOT, 0)];
    assert SaneWith(PLAN, FreshBytes(), (0, 0), owner);
    LaidOut();
  }

  lemma LaidOut()
    ensures Laid(PLAN.geo, [GROUP])
  {
    hide GroupSize, BackupGroup, GroupFits;
    Mounts();
  }
}
