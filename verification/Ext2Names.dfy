/** fs.c: a directory as a finite map from names to inodes. */
module Ext2Names {
  import opened Bytes
  import opened Ext2Layout
  import opened Ext2Directory

  /** What a name stands for: an inode, and what its record says of the kind of that inode. */
  datatype Binding = Binding(ino: nat, code: Byte)

  /** The map a list of entries stands for; a later entry would hide an earlier one. */
  function Bindings(es: seq<Dirent>): map<seq<Byte>, Binding> {
    if es == [] then map[]
    else Bindings(es[..|es| - 1])[es[|es| - 1].name := Binding(es[|es| - 1].ino, es[|es| - 1].code)]
  }

  predicate Absent(es: seq<Dirent>, name: seq<Byte>) {
    name !in Bindings(es)
  }

  /** No name occurs twice. */
  predicate Distinct(es: seq<Dirent>) {
    es == [] || (Absent(es[..|es| - 1], es[|es| - 1].name) && Distinct(es[..|es| - 1]))
  }

  lemma {:induction false} BindJoin(x: seq<Dirent>, y: seq<Dirent>)
    ensures Bindings(x + y) == Bindings(x) + Bindings(y)
    ensures Distinct(x + y) <==> Distinct(x) && Distinct(y) && Bindings(x).Keys !! Bindings(y).Keys
  {
    if y == [] {
      assert x + y == x;
    } else {
      BindJoin(x, y[..|y| - 1]);
      assert (x + y)[..|x + y| - 1] == x + y[..|y| - 1];
    }
  }

  /** Adding an entry with a new name adds that one binding. */
  lemma BindInsert(x: seq<Dirent>, e: Dirent, y: seq<Dirent>)
    requires Distinct(x + y) && Absent(x + y, e.name)
    ensures Distinct(x + [e] + y) && Bindings(x + [e] + y) == Bindings(x + y)[e.name := Binding(e.ino, e.code)]
  {
    BindJoin(x, y);
    BindJoin(x, [e]);
    BindJoin(x + [e], y);
  }

  /** Removing an entry removes that one binding. */
  lemma BindRemove(x: seq<Dirent>, e: Dirent, y: seq<Dirent>)
    requires Distinct(x + [e] + y)
    ensures Distinct(x + y) && Absent(x + y, e.name) && Bindings(x + y) == Bindings(x + [e] + y) - {e.name}
    ensures e.name in Bindings(x + [e] + y) && Bindings(x + [e] + y)[e.name] == Binding(e.ino, e.code)
  {
    BindJoin(x, y);
    BindJoin(x, [e]);
    BindJoin(x + [e], y);
  }

  ghost predicate AllTiled(f: Format, blocks: seq<Block>) {
    forall i :: 0 <= i < |blocks| ==> Tiled(f, blocks[i], 0, BLOCK)
  }

  /** The live entries of a directory, block after block. */
  function Entries(f: Format, blocks: seq<Block>): seq<Dirent>
    requires AllTiled(f, blocks)
  {
    if blocks == [] then [] else
      Entries(f, blocks[..|blocks| - 1]) + List(f, blocks[|blocks| - 1], 0, BLOCK)
  }

  lemma {:induction false} EntriesJoin(f: Format, x: seq<Block>, y: seq<Block>)
    requires AllTiled(f, x) && AllTiled(f, y)
    ensures AllTiled(f, x + y) && Entries(f, x + y) == Entries(f, x) + Entries(f, y)
  {
    hide Tiled, List;
    if y == [] {
      assert x + y == x;
    } else {
      EntriesJoin(f, x, y[..|y| - 1]);
      assert (x + y)[..|x + y| - 1] == x + y[..|y| - 1];
    }
  }

  /** The entries around those of one block. */
  lemma EntriesAt(f: Format, blocks: seq<Block>, i: nat)
    requires i < |blocks| && AllTiled(f, blocks)
    ensures AllTiled(f, blocks[..i]) && AllTiled(f, blocks[i + 1..])
    ensures Entries(f, blocks) == Entries(f, blocks[..i]) + List(f, blocks[i], 0, BLOCK) + Entries(f, blocks[i + 1..])
  {
    hide Tiled, List;
    assert blocks == blocks[..i + 1] + blocks[i + 1..];
    EntriesJoin(f, blocks[..i + 1], blocks[i + 1..]);
    assert blocks[..i + 1][..i] == blocks[..i];
  }

  /** Changing one block changes the entries of that block. */
  lemma EntriesUpdate(f: Format, blocks: seq<Block>, i: nat, b: Block)
    requires i < |blocks| && AllTiled(f, blocks) && Tiled(f, b, 0, BLOCK)
    ensures AllTiled(f, blocks[..i]) && AllTiled(f, blocks[i + 1..]) && AllTiled(f, blocks[i := b])
    ensures Entries(f, blocks[i := b]) == Entries(f, blocks[..i]) + List(f, b, 0, BLOCK) + Entries(f, blocks[i + 1..])
  {
    hide Tiled, List, Entries;
    EntriesAt(f, blocks[i := b], i);
    assert blocks[i := b][..i] == blocks[..i] && blocks[i := b][i + 1..] == blocks[i + 1..];
  }

  /** A well-formed directory: whole blocks of records, no name twice. */
  ghost predicate DirOk(f: Format, blocks: seq<Block>) {
    0 < |blocks| <= DIRECT && AllTiled(f, blocks) && Distinct(Entries(f, blocks))
  }

  ghost function Dir(f: Format, blocks: seq<Block>): map<seq<Byte>, Binding>
    requires DirOk(f, blocks)
  {
    Bindings(Entries(f, blocks))
  }

  /** One block of lookup(): -2 for a record that must not be followed, -1 for an absent
      name, else the inode and where its record is. */
  method FindName(f: Format, b: Block, name: seq<Byte>) returns (r: int, off: nat)
    ensures r == -2 || r == -1 || r > 0
    ensures r == -2 ==> !Tiled(f, b, 0, BLOCK)
    ensures r == -1 ==> Tiled(f, b, 0, BLOCK) && Absent(List(f, b, 0, BLOCK), name)
    ensures r > 0 ==> off <= BLOCK && RecordOk(f, b, off, BLOCK) && Ino(b, off) == r && Name(b, off) == name
    ensures r > 0 ==> Tiled(f, b, 0, off)
  {
    hide RecLen, Ino, Tiled, List;
    off := 0;
    Nothing(f, b, 0);
    while off < BLOCK
      invariant off <= BLOCK && Tiled(f, b, 0, off) && Absent(List(f, b, 0, off), name)
      decreases BLOCK - off
    {
      if !RecordOk(f, b, off, BLOCK) {
        Malformed(f, b, off);
        return -2, off;
      }
      if Ino(b, off) != 0 && Name(b, off) == name {
        return Ino(b, off), off;
      }
      OneMore(f, b, off);
      StillAbsent(List(f, b, 0, off), b, off, name);
      off := off + RecLen(b, off);
    }
    r := -1;
  }

  lemma Nothing(f: Format, b: Block, off: nat)
    requires off <= BLOCK
    ensures Tiled(f, b, off, off) && List(f, b, off, off) == [] && Bindings([]) == map[]
  {
  }

  lemma Malformed(f: Format, b: Block, off: nat)
    requires off < BLOCK && Tiled(f, b, 0, off) && !RecordOk(f, b, off, BLOCK)
    ensures !Tiled(f, b, 0, BLOCK)
  {
    if Tiled(f, b, 0, BLOCK) {
      TiledSplit(f, b, 0, off, BLOCK);
    }
  }

  /** A record that does not match adds nothing that matches. */
  lemma StillAbsent(es: seq<Dirent>, b: Block, off: nat, name: seq<Byte>)
    requires off + 8 <= BLOCK && off + 8 + b[off + 6] <= BLOCK && Absent(es, name)
    requires Ino(b, off) == 0 || Name(b, off) != name
    ensures Absent(es + One(b, off), name)
  {
    BindJoin(es, One(b, off));
  }

  lemma OneMore(f: Format, b: Block, off: nat)
    requires off <= BLOCK && RecordOk(f, b, off, BLOCK) && Tiled(f, b, 0, off)
    ensures Tiled(f, b, 0, off + RecLen(b, off)) && List(f, b, 0, off + RecLen(b, off)) == List(f, b, 0, off) + One(b, off)
  {
    hide RecLen, Ino, Tiled, List;
    TiledOne(f, b, off, BLOCK);
    TiledJoin(f, b, 0, off, off + RecLen(b, off));
  }

  /** A record in a tiled block: the entries before, of and after it. */
  lemma Around(f: Format, b: Block, off: nat)
    requires off <= BLOCK && RecordOk(f, b, off, BLOCK) && Tiled(f, b, 0, off) && Tiled(f, b, 0, BLOCK)
    ensures Tiled(f, b, off + RecLen(b, off), BLOCK)
    ensures List(f, b, 0, BLOCK) == List(f, b, 0, off) + One(b, off) + List(f, b, off + RecLen(b, off), BLOCK)
  {
    hide RecLen, Ino, Tiled, List;
    OneMore(f, b, off);
    TiledSplit(f, b, 0, off + RecLen(b, off), BLOCK);
  }

  /** lookup(): the answer of the map. */
  method Lookup(f: Format, blocks: seq<Block>, name: seq<Byte>) returns (r: int, at: nat, off: nat)
    ensures r == -2 || r == -1 || r > 0
    ensures r == -2 ==> !AllTiled(f, blocks)
    ensures DirOk(f, blocks) ==> (r == -1 <==> name !in Dir(f, blocks)) && (r > 0 ==> name in Dir(f, blocks) && Dir(f, blocks)[name].ino == r)
    ensures r > 0 ==> at < |blocks| && Here(f, blocks[at], off, r, name)
  {
    hide RecLen, Ino, Tiled, List, Bindings, Entries, Distinct, Here, RecordOk;
    at := 0;
    NoBlocks(f, blocks, name);
    while at < |blocks|
      invariant at <= |blocks| && NotBefore(f, blocks, at, name)
    {
      r, off := FindName(f, blocks[at], name);
      if r == -2 {
        return;
      }
      if r > 0 {
        HereIntro(f, blocks[at], off, r, name);
        if DirOk(f, blocks) {
          HereBinds(f, blocks, at, off, r, name);
        }
        return;
      }
      NotInBlock(f, blocks, at, name);
      at := at + 1;
    }
    assert blocks[..|blocks|] == blocks;
    return -1, 0, 0;
  }

  /** The record at `off` binds `name` to `r`. */
  ghost predicate Here(f: Format, b: Block, off: nat, r: int, name: seq<Byte>) {
    off <= BLOCK && RecordOk(f, b, off, BLOCK) && Ino(b, off) == r > 0 && Name(b, off) == name && Tiled(f, b, 0, off)
  }

  lemma HereIntro(f: Format, b: Block, off: nat, r: int, name: seq<Byte>)
    requires off <= BLOCK && RecordOk(f, b, off, BLOCK) && Ino(b, off) == r > 0 && Name(b, off) == name && Tiled(f, b, 0, off)
    ensures Here(f, b, off, r, name)
  {
  }

  ghost predicate NotBefore(f: Format, blocks: seq<Block>, at: nat, name: seq<Byte>) {
    at <= |blocks| && AllTiled(f, blocks[..at]) && Absent(Entries(f, blocks[..at]), name)
  }

  lemma NoBlocks(f: Format, blocks: seq<Block>, name: seq<Byte>)
    ensures NotBefore(f, blocks, 0, name)
  {
    assert blocks[..0] == [];
  }

  lemma NotInBlock(f: Format, blocks: seq<Block>, at: nat, name: seq<Byte>)
    requires NotBefore(f, blocks, at, name) && at < |blocks|
    requires Tiled(f, blocks[at], 0, BLOCK) && Absent(List(f, blocks[at], 0, BLOCK), name)
    ensures NotBefore(f, blocks, at + 1, name)
  {
    hide Tiled, List, Bindings;
    assert blocks[..at + 1][..at] == blocks[..at];
    BindJoin(Entries(f, blocks[..at]), List(f, blocks[at], 0, BLOCK));
  }

  /** The entries of a directory around one live record. */
  lemma SplitAt(f: Format, blocks: seq<Block>, at: nat, off: nat) returns (x: seq<Dirent>, y: seq<Dirent>)
    requires AllTiled(f, blocks) && at < |blocks| && off <= BLOCK && RecordOk(f, blocks[at], off, BLOCK) && Tiled(f, blocks[at], 0, off)
    ensures AllTiled(f, blocks[..at]) && AllTiled(f, blocks[at + 1..]) && Tiled(f, blocks[at], off + RecLen(blocks[at], off), BLOCK)
    ensures x == Entries(f, blocks[..at]) + List(f, blocks[at], 0, off)
    ensures y == List(f, blocks[at], off + RecLen(blocks[at], off), BLOCK) + Entries(f, blocks[at + 1..])
    ensures Entries(f, blocks) == x + One(blocks[at], off) + y
  {
    hide Tiled, List, RecLen, Ino, Entries, One;
    EntriesAt(f, blocks, at);
    Around(f, blocks[at], off);
    x := Entries(f, blocks[..at]) + List(f, blocks[at], 0, off);
    y := List(f, blocks[at], off + RecLen(blocks[at], off), BLOCK) + Entries(f, blocks[at + 1..]);
  }

  lemma HereBinds(f: Format, blocks: seq<Block>, at: nat, off: nat, r: int, name: seq<Byte>)
    requires DirOk(f, blocks) && at < |blocks| && Here(f, blocks[at], off, r, name)
    ensures off + 8 <= BLOCK && name in Dir(f, blocks) && Dir(f, blocks)[name] == Binding(r, blocks[at][off + 7])
  {
    hide Tiled, List, RecLen, Ino, Entries, Distinct, Bindings;
    var x, y := SplitAt(f, blocks, at, off);
    BindRemove(x, Dirent(r, name, blocks[at][off + 7]), y);
  }

  // ------------------------------------------------------------ removing and inserting

  /** `put32(e, 0)` removes one binding. */
  lemma DirRemoved(f: Format, blocks: seq<Block>, at: nat, off: nat, r: int, name: seq<Byte>)
    requires DirOk(f, blocks) && at < |blocks| && Here(f, blocks[at], off, r, name)
    ensures DirOk(f, blocks[at := Removed(blocks[at], off)])
    ensures Dir(f, blocks[at := Removed(blocks[at], off)]) == Dir(f, blocks) - {name}
  {
    hide Tiled, List, RecLen, Ino, Entries, Distinct, Bindings, Removed;
    var x, y := SplitAt(f, blocks, at, off);
    BindRemove(x, Dirent(r, name, blocks[at][off + 7]), y);
    RemovedLists(f, blocks[at], off);
    EntriesUpdate(f, blocks, at, Removed(blocks[at], off));
    assert Entries(f, blocks[at := Removed(blocks[at], off)]) == x + y;
  }

  /** insert() into a record with room adds one binding. */
  lemma DirInserted(f: Format, blocks: seq<Block>, at: nat, off: nat, name: seq<Byte>, ino: Word, kind: Byte)
    requires DirOk(f, blocks) && at < |blocks| && off <= BLOCK && |name| < 256 && Fits(f, blocks[at], off, Need(|name|))
    requires 0 < ino <= f.inodes && Tiled(f, blocks[at], 0, off) && name !in Dir(f, blocks)
    ensures DirOk(f, blocks[at := Inserted(f, blocks[at], off, name, ino, kind)])
    ensures Dir(f, blocks[at := Inserted(f, blocks[at], off, name, ino, kind)]) == Dir(f, blocks)[name := Binding(ino, Code(f, kind))]
  {
    hide Tiled, List, RecLen, Ino, Entries, Distinct, Bindings, Inserted, Need, Used, One;
    var x, y := SplitAt(f, blocks, at, off);
    var c := Inserted(f, blocks[at], off, name, ino, kind);
    InsertedLists(f, blocks[at], off, name, ino, kind);
    EntriesUpdate(f, blocks, at, c);
    BindInsert(x + One(blocks[at], off), Dirent(ino, name, Code(f, kind)), y);
    assert Entries(f, blocks[at := c]) == x + One(blocks[at], off) + [Dirent(ino, name, Code(f, kind))] + y;
  }

  /** insert() into a new block adds one binding. */
  lemma DirGrown(f: Format, blocks: seq<Block>, b: Block, name: seq<Byte>, ino: Word, kind: Byte)
    requires DirOk(f, blocks) && |blocks| < DIRECT && |name| <= MAX_NAME && 0 < ino <= f.inodes && name !in Dir(f, blocks)
    requires b == Record(f, ino, BLOCK, name, kind)
    ensures DirOk(f, blocks + [b]) && Dir(f, blocks + [b]) == Dir(f, blocks)[name := Binding(ino, Code(f, kind))]
  {
    hide Tiled, List, RecLen, Ino, Distinct, Bindings, Record;
    assert b[0..0 + BLOCK] == b;
    RecordReads(f, b, 0, ino, BLOCK, name, kind);
    assert Entries(f, [b]) == [Dirent(ino, name, Code(f, kind))] by {
      assert [b][..0] == [];
      assert Entries(f, []) + List(f, b, 0, BLOCK) == [Dirent(ino, name, Code(f, kind))];
    }
    EntriesJoin(f, blocks, [b]);
    assert Entries(f, blocks) + [] == Entries(f, blocks);
    BindInsert(Entries(f, blocks), Dirent(ino, name, Code(f, kind)), []);
    assert Entries(f, blocks + [b]) == Entries(f, blocks) + [Dirent(ino, name, Code(f, kind))] + [];
  }

  /** Some record of a tiled stretch has room. */
  predicate Roomy(f: Format, b: Block, off: nat, need: nat)
    requires off <= BLOCK && Tiled(f, b, off, BLOCK)
    decreases BLOCK - off
  {
    off < BLOCK && (Fits(f, b, off, need) || Roomy(f, b, off + RecLen(b, off), need))
  }

  /** The search of insert() for a record with room. */
  method FindRoom(f: Format, blocks: seq<Block>, need: nat) returns (r: int, at: nat, off: nat)
    requires need > 0
    ensures r == 0 || r == -1 || r == 1
    ensures r == -1 ==> !AllTiled(f, blocks)
    ensures r == 0 ==> at < |blocks| && off <= BLOCK && Fits(f, blocks[at], off, need) && Tiled(f, blocks[at], 0, off)
    ensures r == 1 && AllTiled(f, blocks) ==> forall i :: 0 <= i < |blocks| ==> !Roomy(f, blocks[i], 0, need)
  {
    hide RecLen, Ino, Tiled, List, Used, Roomy;
    at := 0;
    while at < |blocks|
      invariant at <= |blocks|
      invariant AllTiled(f, blocks) ==> forall i :: 0 <= i < at ==> !Roomy(f, blocks[i], 0, need)
    {
      off := 0;
      var b := blocks[at];
      Nothing(f, b, 0);
      while off < BLOCK
        invariant off <= BLOCK && Tiled(f, b, 0, off)
        invariant Tiled(f, b, 0, BLOCK) ==> Tiled(f, b, off, BLOCK) && Roomy(f, b, 0, need) == Roomy(f, b, off, need)
        decreases BLOCK - off
      {
        if !RecordOk(f, b, off, BLOCK) {
          Malformed(f, b, off);
          return -1, at, off;
        }
        UsedFits(f, b, off);
        if RecLen(b, off) - Used(b, off) >= need {
          return 0, at, off;
        }
        OneMore(f, b, off);
        if Tiled(f, b, 0, BLOCK) {
          NotHere(f, b, off, need);
        }
        off := off + RecLen(b, off);
      }
      if AllTiled(f, blocks) {
        FullAt(f, b, need);
      }
      at := at + 1;
    }
    return 1, 0, 0;
  }

  lemma NotHere(f: Format, b: Block, off: nat, need: nat)
    requires off < BLOCK && Tiled(f, b, off, BLOCK) && RecordOk(f, b, off, BLOCK) && !Fits(f, b, off, need)
    ensures Tiled(f, b, off + RecLen(b, off), BLOCK) && Roomy(f, b, off, need) == Roomy(f, b, off + RecLen(b, off), need)
  {
  }

  lemma FullAt(f: Format, b: Block, need: nat)
    ensures Tiled(f, b, BLOCK, BLOCK) && !Roomy(f, b, BLOCK, need)
  {
  }
}
