/** fs.c: directory blocks as tilings by variable-length records, and the names they bind. */
module Ext2Directory {
  import opened Bytes
  import opened Ext2Layout

  const MAX_NAME := 23

  /** What record() needs to know of the volume. */
  datatype Format = Format(filetype: bool, inodes: nat)

  /** A live entry; `code` is the byte for the kind of its inode. */
  datatype Dirent = Dirent(ino: nat, name: seq<Byte>, code: Byte)

  type Block = b: seq<Byte> | |b| == BLOCK witness Zeros(BLOCK)

  function Bytes16(v: nat): (r: seq<Byte>)
    requires v < 0x1_0000
    ensures |r| == 2
  {
    [v % 0x100, v / 0x100]
  }

  function Ino(b: Block, off: nat): Word
    requires off + 8 <= BLOCK
  {
    Load32(b, off)
  }

  function RecLen(b: Block, off: nat): nat
    requires off + 8 <= BLOCK
  {
    Load16(b, off + 4)
  }

  /** record(): may the record at `off` be followed? */
  predicate RecordOk(f: Format, b: Block, off: nat, end: nat)
    requires off <= end <= BLOCK
  {
    end - off >= 8 &&
    RecLen(b, off) >= 8 && RecLen(b, off) % 4 == 0 && RecLen(b, off) <= end - off &&
    b[off + 6] <= RecLen(b, off) - 8 && (f.filetype || b[off + 7] == 0) &&
    Ino(b, off) <= f.inodes
  }

  function Name(b: Block, off: nat): seq<Byte>
    requires off + 8 <= BLOCK && off + 8 + b[off + 6] <= BLOCK
  {
    b[off + 8..off + 8 + b[off + 6]]
  }

  /** Records tile [off, end) exactly. */
  predicate Tiled(f: Format, b: Block, off: nat, end: nat)
    requires off <= end <= BLOCK
    decreases end - off
  {
    off == end || (RecordOk(f, b, off, end) && Tiled(f, b, off + RecLen(b, off), end))
  }

  /** The live entry of one record, if it is live. */
  function One(b: Block, off: nat): (r: seq<Dirent>)
    requires off + 8 <= BLOCK && off + 8 + b[off + 6] <= BLOCK
  {
    if Ino(b, off) != 0 then [Dirent(Ino(b, off), Name(b, off), b[off + 7])] else []
  }

  /** The live entries of [off, end), in order. */
  function List(f: Format, b: Block, off: nat, end: nat): (r: seq<Dirent>)
    requires off <= end <= BLOCK && Tiled(f, b, off, end)
    decreases end - off
  {
    if off == end then [] else One(b, off) + List(f, b, off + RecLen(b, off), end)
  }

  /** A tiling ends where another begins. */
  lemma {:induction false} TiledJoin(f: Format, b: Block, off: nat, mid: nat, end: nat)
    requires off <= mid <= end <= BLOCK && Tiled(f, b, off, mid) && Tiled(f, b, mid, end)
    ensures Tiled(f, b, off, end) && List(f, b, off, end) == List(f, b, off, mid) + List(f, b, mid, end)
    decreases mid - off
  {
    hide RecLen, Ino, One;
    if off < mid {
      TiledJoin(f, b, off + RecLen(b, off), mid, end);
    }
  }

  /** Records are found one way only: a tiling that starts another continues it. */
  lemma {:induction false} TiledSplit(f: Format, b: Block, off: nat, mid: nat, end: nat)
    requires off <= mid <= end <= BLOCK && Tiled(f, b, off, mid) && Tiled(f, b, off, end)
    ensures Tiled(f, b, mid, end) && List(f, b, off, end) == List(f, b, off, mid) + List(f, b, mid, end)
    decreases mid - off
  {
    hide RecLen, Ino, One;
    if off < mid {
      TiledSplit(f, b, off + RecLen(b, off), mid, end);
    }
  }

  lemma TiledJoin3(f: Format, b: Block, x: nat, y: nat)
    requires x <= y <= BLOCK && Tiled(f, b, 0, x) && Tiled(f, b, x, y) && Tiled(f, b, y, BLOCK)
    ensures Tiled(f, b, 0, BLOCK) && List(f, b, 0, BLOCK) == List(f, b, 0, x) + List(f, b, x, y) + List(f, b, y, BLOCK)
  {
    hide Tiled, List;
    TiledJoin(f, b, 0, x, y);
    TiledJoin(f, b, 0, y, BLOCK);
  }

  /** A record is a tiling of its own stretch. */
  lemma TiledOne(f: Format, b: Block, off: nat, end: nat)
    requires off <= end <= BLOCK && RecordOk(f, b, off, end)
    ensures RecordOk(f, b, off, off + RecLen(b, off)) && Tiled(f, b, off, off + RecLen(b, off))
    ensures List(f, b, off, off + RecLen(b, off)) == One(b, off)
  {
    var next := off + RecLen(b, off);
    assert Tiled(f, b, next, next) && List(f, b, next, next) == [];
  }

  /** A tiling depends on the bytes of its stretch only. */
  lemma {:induction false} TiledFrame(f: Format, b: Block, c: Block, off: nat, end: nat)
    requires off <= end <= BLOCK && Tiled(f, b, off, end) && (forall i :: off <= i < end ==> c[i] == b[i])
    ensures Tiled(f, c, off, end) && List(f, c, off, end) == List(f, b, off, end)
    decreases end - off
  {
    if off < end {
      assert RecLen(c, off) == RecLen(b, off) && Ino(c, off) == Ino(b, off);
      TiledFrame(f, b, c, off + RecLen(b, off), end);
      assert c[off + 8..off + 8 + c[off + 6]] == b[off + 8..off + 8 + b[off + 6]];
      assert One(c, off) == One(b, off);
    }
  }

  /** The space a record with a name of `n` bytes needs. */
  function Need(n: nat): (r: nat)
    ensures r % 4 == 0 && 8 + n <= r < 8 + n + 4
  {
    (8 + n + 3) / 4 * 4
  }

  /** What a record uses of its length. */
  function Used(b: Block, off: nat): nat
    requires off + 8 <= BLOCK
  {
    if Ino(b, off) != 0 then Need(b[off + 6]) else 0
  }

  /** entry_set: a whole record. */
  function Record(f: Format, ino: Word, len: nat, name: seq<Byte>, kind: Byte): (r: seq<Byte>)
    requires len < 0x1_0000 && 8 + |name| <= len && |name| < 256
    ensures |r| == len
  {
    Bytes32(ino) + Bytes16(len) + [|name|, Code(f, kind)] + name + Zeros(len - 8 - |name|)
  }

  /** What entry_set stores for the kind. */
  function Code(f: Format, kind: Byte): Byte {
    if f.filetype then kind else 0
  }

  /** A record that was set reads back as what was set. */
  lemma RecordReads(f: Format, b: Block, off: nat, ino: Word, len: nat, name: seq<Byte>, kind: Byte)
    requires off + len <= BLOCK && Need(|name|) <= len && len % 4 == 0 && |name| < 256 && 0 < ino <= f.inodes
    requires b[off..off + len] == Record(f, ino, len, name, kind)
    ensures Tiled(f, b, off, off + len) && List(f, b, off, off + len) == [Dirent(ino, name, Code(f, kind))]
  {
    var r := Record(f, ino, len, name, kind);
    assert forall i :: 0 <= i < len ==> b[off + i] == r[i];
    BytesOfWord(ino);
    assert r[..4] == Bytes32(ino);
    assert Load32(r, 0) == ino && Ino(b, off) == ino;
    assert RecLen(b, off) == len;
    assert r[8..8 + |name|] == name;
    assert b[off + 8..off + 8 + |name|] == b[off..off + len][8..8 + |name|];
    TiledOne(f, b, off, off + len);
  }

  /** Where insert() may put a name: a record with enough space after what it uses. */
  predicate Fits(f: Format, b: Block, off: nat, need: nat)
    requires off <= BLOCK
  {
    RecordOk(f, b, off, BLOCK) && Used(b, off) <= RecLen(b, off) && RecLen(b, off) - Used(b, off) >= need
  }

  lemma UsedFits(f: Format, b: Block, off: nat)
    requires off <= BLOCK && RecordOk(f, b, off, BLOCK)
    ensures Used(b, off) <= RecLen(b, off) && Used(b, off) % 4 == 0 && RecLen(b, off) % 4 == 0
    ensures off + RecLen(b, off) <= BLOCK && (Used(b, off) == 0 ==> One(b, off) == [])
  {
  }

  /** The block after insert() used the record at `off`: a live record is split, an empty
      one is taken over. */
  function Inserted(f: Format, b: Block, off: nat, name: seq<Byte>, ino: Word, kind: Byte): (r: Block)
    requires off <= BLOCK && |name| < 256 && Fits(f, b, off, Need(|name|))
  {
    var used, len := Used(b, off), RecLen(b, off);
    var shrunk := if used != 0 then Splice(b, off + 4, Bytes16(used)) else b;
    Splice(shrunk, off + used, Record(f, ino, len - used, name, kind))
  }

  /** The record that is split keeps its inode and name. */
  lemma Shrunk(f: Format, b: Block, c: Block, off: nat)
    requires off <= BLOCK && RecordOk(f, b, off, BLOCK) && Ino(b, off) != 0
    requires forall i :: off <= i < off + Used(b, off) ==> c[i] == Splice(b, off + 4, Bytes16(Used(b, off)))[i]
    ensures off + Used(b, off) <= BLOCK && Tiled(f, c, off, off + Used(b, off))
    ensures List(f, c, off, off + Used(b, off)) == One(b, off)
  {
    UsedFits(f, b, off);
    var used := Used(b, off);
    assert Bytes16(used)[0] == c[off + 4] && Bytes16(used)[1] == c[off + 5];
    assert RecLen(c, off) == used;
    assert Ino(c, off) == Ino(b, off);
    assert c[off + 8..off + 8 + c[off + 6]] == b[off + 8..off + 8 + b[off + 6]];
    TiledOne(f, c, off, off + used);
  }

  /** The bytes insert() writes. */
  lemma InsertedBytes(f: Format, b: Block, off: nat, name: seq<Byte>, ino: Word, kind: Byte)
    requires off <= BLOCK && |name| < 256 && Fits(f, b, off, Need(|name|))
    ensures var c, used, len := Inserted(f, b, off, name, ino, kind), Used(b, off), RecLen(b, off);
      && (forall i :: 0 <= i < off || off + len <= i < BLOCK ==> c[i] == b[i])
      && c[off + used..off + len] == Record(f, ino, len - used, name, kind)
      && (used != 0 ==> forall i :: off <= i < off + used ==> c[i] == Splice(b, off + 4, Bytes16(used))[i])
  {
    UsedFits(f, b, off);
    hide Record, Bytes16, Need, RecLen, Ino;
  }

  lemma UsedLive(b: Block, off: nat)
    requires off + 8 <= BLOCK
    ensures Used(b, off) != 0 <==> Ino(b, off) != 0
  {
  }

  /** Up to the new record, the entries are those up to and including the one that was used. */
  lemma InsertedHead(f: Format, b: Block, c: Block, off: nat)
    requires off <= BLOCK && RecordOk(f, b, off, BLOCK) && Tiled(f, b, 0, off)
    requires forall i :: 0 <= i < off ==> c[i] == b[i]
    requires Used(b, off) != 0 ==> forall i :: off <= i < off + Used(b, off) ==> c[i] == Splice(b, off + 4, Bytes16(Used(b, off)))[i]
    ensures off + Used(b, off) <= BLOCK && Tiled(f, c, 0, off + Used(b, off))
    ensures List(f, c, 0, off + Used(b, off)) == List(f, b, 0, off) + One(b, off)
  {
    hide Tiled, RecLen, Ino, Splice, Bytes16, List, One, Need, Used;
    UsedFits(f, b, off);
    TiledFrame(f, b, c, 0, off);
    if Used(b, off) != 0 {
      UsedLive(b, off);
      Shrunk(f, b, c, off);
      TiledJoin(f, c, 0, off, off + Used(b, off));
    }
  }

  /** insert() keeps the tiling and adds one entry, right behind the record it used. */
  lemma InsertedLists(f: Format, b: Block, off: nat, name: seq<Byte>, ino: Word, kind: Byte)
    requires off <= BLOCK && |name| < 256 && Fits(f, b, off, Need(|name|)) && 0 < ino <= f.inodes
    requires Tiled(f, b, 0, off) && Tiled(f, b, off + RecLen(b, off), BLOCK)
    ensures var c, next := Inserted(f, b, off, name, ino, kind), off + RecLen(b, off);
      && Tiled(f, c, 0, BLOCK)
      && List(f, c, 0, BLOCK) == List(f, b, 0, off) + One(b, off) + [Dirent(ino, name, Code(f, kind))] + List(f, b, next, BLOCK)
  {
    hide Inserted, Splice, Record, Tiled, One, RecLen, Used, List, Need, Ino;
    var c, used, next := Inserted(f, b, off, name, ino, kind), Used(b, off), off + RecLen(b, off);
    UsedFits(f, b, off);
    InsertedBytes(f, b, off, name, ino, kind);
    InsertedHead(f, b, c, off);
    TiledFrame(f, b, c, next, BLOCK);
    RecordReads(f, c, off + used, ino, next - off - used, name, kind);
    TiledJoin3(f, c, off + used, next);
  }

  /** The block after `put32(e, 0)`. */
  function Removed(b: Block, off: nat): Block
    requires off + 8 <= BLOCK
  {
    Splice(b, off, Bytes32(0))
  }

  lemma RemovedOne(f: Format, b: Block, off: nat)
    requires off <= BLOCK && RecordOk(f, b, off, BLOCK)
    ensures var c := Removed(b, off); RecordOk(f, c, off, BLOCK) && RecLen(c, off) == RecLen(b, off) && One(c, off) == []
  {
    var c := Removed(b, off);
    BytesOfWord(0);
    assert c[off..off + 4] == Bytes32(0);
    assert Ino(c, off) == 0;
  }

  /** Clearing the inode number of a record removes its entry and no other. */
  lemma RemovedLists(f: Format, b: Block, off: nat)
    requires off <= BLOCK && RecordOk(f, b, off, BLOCK) && Tiled(f, b, 0, off) && Tiled(f, b, off + RecLen(b, off), BLOCK)
    ensures var c, next := Removed(b, off), off + RecLen(b, off);
      && Tiled(f, c, 0, BLOCK)
      && List(f, c, 0, BLOCK) == List(f, b, 0, off) + List(f, b, next, BLOCK)
  {
    hide Removed, Splice, Tiled, One, RecLen, List, Ino, Used;
    var c, next := Removed(b, off), off + RecLen(b, off);
    RemovedOne(f, b, off);
    UsedFits(f, b, off);
    RemovedBytes(f, b, off);
    TiledOne(f, c, off, BLOCK);
    TiledFrame(f, b, c, 0, off);
    TiledFrame(f, b, c, next, BLOCK);
    TiledJoin3(f, c, off, next);
  }

  lemma RemovedBytes(f: Format, b: Block, off: nat)
    requires off <= BLOCK && RecordOk(f, b, off, BLOCK)
    ensures forall i :: 0 <= i < off || off + RecLen(b, off) <= i < BLOCK ==> Removed(b, off)[i] == b[i]
  {
  }
}
