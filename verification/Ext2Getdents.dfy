/** fs.c: engine_getdents, which hands a directory out in pieces. */
module Ext2Getdents {
  import opened Bytes
  import opened Ext2Layout
  import opened Ext2Directory
  import opened Ext2Names

  /** Size of the Linux dirent for a name of `n` bytes. */
  function DirentLen(n: nat): (r: nat)
    ensures 12 + n <= r < 16 + n && r % 4 == 0
  {
    (10 + n + 2 + 3) / 4 * 4
  }

  /** A Linux dirent: inode, position of the next entry, length, name, padding, file type. */
  function Encode(d: Dirent, next: nat, types: seq<Byte>): (r: seq<Byte>)
    requires d.ino < |types| < U32 && next < U32 && |d.name| < 256
    ensures |r| == DirentLen(|d.name|)
  {
    var len := DirentLen(|d.name|);
    Bytes32(d.ino) + Bytes32(next) + Bytes16(len) + d.name + Zeros(len - 11 - |d.name|) + [types[d.ino]]
  }

  /** Entries can be encoded: their inodes have types and their positions fit a word. */
  ghost predicate Encodable(es: seq<Dirent>, types: seq<Byte>) {
    |types| < U32 && |es| < U32 && forall i :: 0 <= i < |es| ==> es[i].ino < |types| && |es[i].name| < 256
  }

  /** The dirents of entries `lo` up to `hi`. */
  function EncodeRange(es: seq<Dirent>, lo: nat, hi: nat, types: seq<Byte>): seq<Byte>
    requires lo <= hi <= |es| && Encodable(es, types)
    decreases hi - lo
  {
    if lo == hi then [] else EncodeRange(es, lo, hi - 1, types) + Encode(es[hi - 1], hi, types)
  }

  lemma {:induction false} EncodeJoin(es: seq<Dirent>, lo: nat, mid: nat, hi: nat, types: seq<Byte>)
    requires lo <= mid <= hi <= |es| && Encodable(es, types)
    ensures EncodeRange(es, lo, hi, types) == EncodeRange(es, lo, mid, types) + EncodeRange(es, mid, hi, types)
    decreases hi - mid
  {
    hide Encode;
    if mid < hi {
      EncodeJoin(es, lo, mid, hi - 1, types);
    }
  }

  /** Only the entries in the range matter. */
  lemma {:induction false} EncodePrefix(es: seq<Dirent>, more: seq<Dirent>, lo: nat, hi: nat, types: seq<Byte>)
    requires lo <= hi <= |es| && Encodable(es, types) && Encodable(es + more, types)
    ensures EncodeRange(es + more, lo, hi, types) == EncodeRange(es, lo, hi, types)
    decreases hi - lo
  {
    hide Encode;
    if lo < hi {
      EncodePrefix(es, more, lo, hi - 1, types);
    }
  }

  // ------------------------------------------------------------ reading dirents back

  function UpToNul(s: seq<Byte>): (r: seq<Byte>)
    ensures |r| <= |s| && r == s[..|r|]
  {
    if s == [] || s[0] == 0 then [] else [s[0]] + UpToNul(s[1..])
  }

  lemma {:induction false} NameEnds(name: seq<Byte>, rest: seq<Byte>)
    requires (forall i :: 0 <= i < |name| ==> name[i] != 0) && rest != [] && rest[0] == 0
    ensures UpToNul(name + rest) == name
  {
    if name == [] {
      assert name + rest == rest;
    } else {
      NameEnds(name[1..], rest);
      assert (name + rest)[1..] == name[1..] + rest;
    }
  }

  /** A directory entry as a program sees it: the position to go on from after it, and its type. */
  datatype Entry = Entry(ino: nat, next: nat, name: seq<Byte>, kind: Byte)

  /** What a caller reads out of a buffer of dirents. */
  function Decode(s: seq<Byte>): seq<Entry> {
    if |s| < 12 || Load16(s, 8) < 12 || Load16(s, 8) > |s| then []
    else [Entry(Load32(s, 0), Load32(s, 4), UpToNul(s[10..]), s[Load16(s, 8) - 1])] + Decode(s[Load16(s, 8)..])
  }

  /** The entries `lo` up to `hi` as a program should see them. */
  ghost function Shown(es: seq<Dirent>, lo: nat, hi: nat, types: seq<Byte>): seq<Entry>
    requires lo <= hi <= |es| && Encodable(es, types)
  {
    seq(hi - lo, i requires 0 <= i < hi - lo => Entry(es[lo + i].ino, lo + i + 1, es[lo + i].name, types[es[lo + i].ino]))
  }

  /** The fields of an encoded entry. */
  lemma EncodeParts(d: Dirent, next: nat, types: seq<Byte>)
    requires d.ino < |types| < U32 && next < U32 && |d.name| < 256
    ensures var e, len := Encode(d, next, types), DirentLen(|d.name|);
      && |e| == len && e[..4] == Bytes32(d.ino) && e[4..8] == Bytes32(next) && e[8..10] == Bytes16(len)
      && e[10..] == d.name + (Zeros(len - 11 - |d.name|) + [types[d.ino]]) && e[len - 1] == types[d.ino]
  {
    hide Bytes32, Bytes16;
  }

  lemma DecodeOne(d: Dirent, next: nat, types: seq<Byte>, rest: seq<Byte>)
    requires d.ino < |types| < U32 && next < U32 && |d.name| < 256 && forall i :: 0 <= i < |d.name| ==> d.name[i] != 0
    ensures Decode(Encode(d, next, types) + rest) == [Entry(d.ino, next, d.name, types[d.ino])] + Decode(rest)
  {
    hide Encode, Bytes32, Load32;
    EncodeParts(d, next, types);
    var e := Encode(d, next, types);
    var s := e + rest;
    var len := DirentLen(|d.name|);
    assert s[0..4] == e[..4] && s[4..8] == e[4..8] && s[len..] == rest;
    LoadOf(s, 0, d.ino);
    LoadOf(s, 4, next);
    assert s[8] == e[8..10][0] && s[9] == e[8..10][1];
    assert Load16(s, 8) == len;
    var tail := Zeros(len - 11 - |d.name|) + [types[d.ino]] + rest;
    assert s[10..] == e[10..] + rest == d.name + tail;
    NameEnds(d.name, tail);
  }

  /** The dirents of a range, read back, are the entries of that range. */
  lemma {:induction false} DecodeRange(es: seq<Dirent>, lo: nat, hi: nat, types: seq<Byte>)
    requires lo <= hi <= |es| && Encodable(es, types)
    requires forall i, k :: 0 <= i < |es| && 0 <= k < |es[i].name| ==> es[i].name[k] != 0
    ensures Decode(EncodeRange(es, lo, hi, types)) == Shown(es, lo, hi, types)
    decreases hi - lo
  {
    hide Encode, Decode;
    if lo < hi {
      EncodeJoin(es, lo, lo + 1, hi, types);
      DecodeRange(es, lo + 1, hi, types);
      assert EncodeRange(es, lo, lo, types) == [];
      assert EncodeRange(es, lo, lo + 1, types) == Encode(es[lo], lo + 1, types);
      DecodeOne(es[lo], lo + 1, types, EncodeRange(es, lo + 1, hi, types));
      assert Shown(es, lo, hi, types) == [Entry(es[lo].ino, lo + 1, es[lo].name, types[es[lo].ino])] + Shown(es, lo + 1, hi, types);
    } else {
      DecodeNothing();
      assert Shown(es, lo, hi, types) == [];
    }
  }

  lemma DecodeNothing()
    ensures Decode([]) == []
  {
  }

  // ------------------------------------------------------------ a run of calls

  /** One call: entries `lo` up to `hi`, in a buffer of `capacity` bytes. */
  datatype Page = Page(lo: nat, hi: nat, capacity: nat, bytes: seq<Byte>)

  /** What one call does: it hands out the next entries, and stops only at the end or
      before an entry that does not fit. */
  ghost predicate PageOk(es: seq<Dirent>, types: seq<Byte>, p: Page)
    requires Encodable(es, types)
  {
    && p.lo <= p.hi <= |es| && p.bytes == EncodeRange(es, p.lo, p.hi, types) && |p.bytes| <= p.capacity
    && (p.hi < |es| ==> |p.bytes| + DirentLen(|es[p.hi].name|) > p.capacity)
  }

  /** Where the calls before the i-th stopped. */
  function Stopped(pages: seq<Page>, i: nat): nat
    requires i <= |pages|
  {
    if i == 0 then 0 else pages[i - 1].hi
  }

  /** Calls made one after the other, each from where the last one stopped. */
  ghost predicate PagesOk(es: seq<Dirent>, types: seq<Byte>, pages: seq<Page>)
    requires Encodable(es, types)
  {
    forall i :: 0 <= i < |pages| ==> PageOk(es, types, pages[i]) && pages[i].lo == Stopped(pages, i)
  }

  function AllBytes(pages: seq<Page>): seq<Byte> {
    if pages == [] then [] else AllBytes(pages[..|pages| - 1]) + pages[|pages| - 1].bytes
  }

  lemma PagesPrefix(es: seq<Dirent>, types: seq<Byte>, pages: seq<Page>, n: nat)
    requires Encodable(es, types) && PagesOk(es, types, pages) && n <= |pages|
    ensures PagesOk(es, types, pages[..n])
  {
    hide PageOk;
    forall i | 0 <= i < n
      ensures PageOk(es, types, pages[..n][i]) && pages[..n][i].lo == Stopped(pages[..n], i)
    {
      assert PageOk(es, types, pages[i]) && pages[i].lo == Stopped(pages, i);
    }
  }

  lemma {:induction false} PagesJoin(es: seq<Dirent>, types: seq<Byte>, pages: seq<Page>)
    requires Encodable(es, types) && PagesOk(es, types, pages) && pages != []
    ensures AllBytes(pages) == EncodeRange(es, 0, pages[|pages| - 1].hi, types)
  {
    hide EncodeRange;
    var last := |pages| - 1;
    if last == 0 {
      assert pages[..0] == [];
      assert PageOk(es, types, pages[0]) && pages[0].lo == Stopped(pages, 0);
      assert AllBytes(pages) == [] + pages[0].bytes == pages[0].bytes;
    } else {
      PagesPrefix(es, types, pages, last);
      assert PageOk(es, types, pages[last]) && pages[last].lo == Stopped(pages, last);
      PagesJoin(es, types, pages[..last]);
      EncodeJoin(es, 0, pages[last].lo, pages[last].hi, types);
    }
  }

  /** With buffers that hold any one entry, a call that returns nothing ends the listing,
      every earlier call made progress, and the pieces are every live entry exactly once. */
  lemma {:induction false} Pagination(es: seq<Dirent>, types: seq<Byte>, pages: seq<Page>)
    requires Encodable(es, types) && PagesOk(es, types, pages)
    requires forall i, k :: 0 <= i < |es| && 0 <= k < |es[i].name| ==> es[i].name[k] != 0
    requires forall i, j :: 0 <= i < |pages| && 0 <= j < |es| ==> DirentLen(|es[j].name|) <= pages[i].capacity
    requires pages != [] && pages[|pages| - 1].bytes == []
    ensures Decode(AllBytes(pages)) == Shown(es, 0, |es|, types)
    ensures forall i :: 0 <= i < |pages| && pages[i].lo < |es| ==> pages[i].hi > pages[i].lo
  {
    hide EncodeRange, Encode, Decode, PageOk, DirentLen, AllBytes;
    forall i | 0 <= i < |pages| && pages[i].lo < |es| ensures pages[i].hi > pages[i].lo {
      assert PageOk(es, types, pages[i]);
      Progress(es, types, pages[i]);
    }
    var last := |pages| - 1;
    assert PageOk(es, types, pages[last]);
    LastPage(es, types, pages[last]);
    PagesJoin(es, types, pages);
    DecodeRange(es, 0, |es|, types);
  }

  lemma Progress(es: seq<Dirent>, types: seq<Byte>, p: Page)
    requires Encodable(es, types) && PageOk(es, types, p) && p.lo < |es|
    requires DirentLen(|es[p.lo].name|) <= p.capacity
    ensures p.hi > p.lo
  {
    EmptyRange(es, p.lo, p.hi, types);
  }

  /** A page with nothing on it is the end of the listing. */
  lemma LastPage(es: seq<Dirent>, types: seq<Byte>, p: Page)
    requires Encodable(es, types) && PageOk(es, types, p) && p.bytes == []
    requires forall j :: 0 <= j < |es| ==> DirentLen(|es[j].name|) <= p.capacity
    ensures p.hi == |es|
  {
  }

  lemma EmptyRange(es: seq<Dirent>, lo: nat, hi: nat, types: seq<Byte>)
    requires lo <= hi <= |es| && Encodable(es, types)
    ensures EncodeRange(es, lo, hi, types) == [] <==> lo == hi
  {
  }

  // ------------------------------------------------------------ one call

  /** What a call that starts at `position` has written once it has seen `seen`. */
  function Written(seen: seq<Dirent>, position: nat, types: seq<Byte>): seq<Byte>
    requires Encodable(seen, types)
  {
    if |seen| <= position then [] else EncodeRange(seen, position, |seen|, types)
  }

  lemma WrittenMore(seen: seq<Dirent>, d: Dirent, position: nat, types: seq<Byte>)
    requires Encodable(seen, types) && Encodable(seen + [d], types) && d.ino < |types| && |d.name| < 256
    ensures Written(seen + [d], position, types) ==
      if |seen| < position then [] else Written(seen, position, types) + Encode(d, |seen| + 1, types)
  {
    hide Encode, Encodable;
    if |seen| >= position {
      EncodePrefix(seen, [d], position, |seen|, types);
      assert (seen + [d])[|seen|] == d;
    }
  }

  /** The call as one page of the listing. */
  ghost predicate Served(es: seq<Dirent>, types: seq<Byte>, position: nat, capacity: nat, r: int, next: nat, bytes: seq<Byte>)
    requires Encodable(es, types)
  {
    if position > |es| then r == 0 && next == position
    else
      && PageOk(es, types, Page(position, next, capacity, bytes))
      && r == if bytes == [] && position < |es| then -22 else |bytes|
  }

  lemma ServedEnd(es: seq<Dirent>, types: seq<Byte>, position: nat, capacity: nat, bytes: seq<Byte>)
    requires Encodable(es, types) && bytes == Written(es, position, types) && |bytes| <= capacity
    ensures Served(es, types, position, capacity, |bytes|, if |es| <= position then position else |es|, bytes)
  {
    hide Encode;
    if |es| > position {
      EmptyRange(es, position, |es|, types);
    }
  }

  lemma ServedFull(seen: seq<Dirent>, d: Dirent, rest: seq<Dirent>, types: seq<Byte>, position: nat, capacity: nat, bytes: seq<Byte>)
    requires Encodable(seen, types) && Encodable(seen + [d] + rest, types) && |seen| >= position
    requires bytes == Written(seen, position, types) && |bytes| <= capacity && DirentLen(|d.name|) > capacity - |bytes|
    ensures Served(seen + [d] + rest, types, position, capacity, if bytes == [] then -22 else |bytes|, |seen|, bytes)
  {
    hide Encode;
    var es := seen + [d] + rest;
    assert es == seen + ([d] + rest) && es[|seen|] == d;
    EncodePrefix(seen, [d] + rest, position, |seen|, types);
    EmptyRange(seen, position, |seen|, types);
  }

  /** What holds when the call has seen `seen` of a well-formed directory. */
  ghost predicate Going(es: seq<Dirent>, seen: seq<Dirent>, rest: seq<Dirent>, types: seq<Byte>, position: nat, index: nat, current: nat, bytes: seq<Byte>) {
    && es == seen + rest && current == |seen| && Encodable(es, types) && Encodable(seen, types)
    && index == (if current <= position then position else current)
    && bytes == Written(seen, position, types)
  }

  lemma GoingStart(es: seq<Dirent>, types: seq<Byte>, position: nat)
    requires Encodable(es, types)
    ensures Going(es, [], es, types, position, position, 0, [])
  {
    assert es == [] + es;
  }

  /** Passing one live record. */
  lemma GoingOn(es: seq<Dirent>, seen: seq<Dirent>, d: Dirent, rest: seq<Dirent>, types: seq<Byte>, position: nat, index: nat, current: nat, bytes: seq<Byte>)
    requires Going(es, seen, [d] + rest, types, position, index, current, bytes)
    ensures d.ino < |types| < U32 && current + 1 < U32 && |d.name| < 256 && (current >= index ==> current == index)
    ensures if current >= index then Going(es, seen + [d], rest, types, position, index + 1, current + 1, bytes + Encode(d, current + 1, types))
            else Going(es, seen + [d], rest, types, position, index, current + 1, bytes)
  {
    assert es[|seen|] == d;
    assert es == seen + [d] + rest;
    forall i | 0 <= i < |seen + [d]| ensures (seen + [d])[i].ino < |types| && |(seen + [d])[i].name| < 256 {
      assert (seen + [d])[i] == es[i];
    }
    hide Written, Encode;
    WrittenMore(seen, d, position, types);
    if current < position {
      WrittenNothing(seen, position, types);
    }
  }

  lemma WrittenNothing(seen: seq<Dirent>, position: nat, types: seq<Byte>)
    requires Encodable(seen, types) && |seen| <= position
    ensures Written(seen, position, types) == []
  {
  }

  /** Few entries fit a stretch of a block. */
  lemma {:induction false} ListEncodable(f: Format, b: Block, off: nat, end: nat)
    requires off <= end <= BLOCK && Tiled(f, b, off, end)
    ensures |List(f, b, off, end)| <= (end - off) / 8
    ensures forall i :: 0 <= i < |List(f, b, off, end)| ==> List(f, b, off, end)[i].ino <= f.inodes && |List(f, b, off, end)[i].name| < 256
    decreases end - off
  {
    hide RecLen, Ino;
    if off < end {
      ListEncodable(f, b, off + RecLen(b, off), end);
      var one, rest := One(b, off), List(f, b, off + RecLen(b, off), end);
      assert List(f, b, off, end) == one + rest && |one| <= 1;
      assert forall i :: |one| <= i < |one + rest| ==> (one + rest)[i] == rest[i - |one|];
    }
  }

  lemma {:induction false} EntriesEncodable(f: Format, blocks: seq<Block>)
    requires AllTiled(f, blocks)
    ensures |Entries(f, blocks)| <= 128 * |blocks|
    ensures forall i :: 0 <= i < |Entries(f, blocks)| ==> Entries(f, blocks)[i].ino <= f.inodes && |Entries(f, blocks)[i].name| < 256
  {
    hide Tiled, List;
    if blocks != [] {
      EntriesEncodable(f, blocks[..|blocks| - 1]);
      ListEncodable(f, blocks[|blocks| - 1], 0, BLOCK);
    }
  }

  lemma EntriesFrom(f: Format, blocks: seq<Block>, at: nat)
    requires at < |blocks| && AllTiled(f, blocks)
    ensures Tiled(f, blocks[at], 0, BLOCK) && AllTiled(f, blocks[at..]) && AllTiled(f, blocks[at + 1..])
    ensures Entries(f, blocks[at..]) == List(f, blocks[at], 0, BLOCK) + Entries(f, blocks[at + 1..])
  {
    hide Tiled, List;
    assert blocks[at..] == [blocks[at]] + blocks[at + 1..];
    assert [blocks[at]][..0] == [];
    assert Entries(f, [blocks[at]]) == Entries(f, []) + List(f, blocks[at], 0, BLOCK) == List(f, blocks[at], 0, BLOCK);
    EntriesJoin(f, [blocks[at]], blocks[at + 1..]);
  }

  /** The live entries from record `off` of block `at` on. */
  ghost function Rest(f: Format, blocks: seq<Block>, at: nat, off: nat): seq<Dirent>
    requires AllTiled(f, blocks) && at < |blocks| && off <= BLOCK && Tiled(f, blocks[at], off, BLOCK)
  {
    List(f, blocks[at], off, BLOCK) + Entries(f, blocks[at + 1..])
  }

  lemma RestStep(f: Format, blocks: seq<Block>, at: nat, off: nat)
    requires AllTiled(f, blocks) && at < |blocks| && off < BLOCK && Tiled(f, blocks[at], off, BLOCK)
    ensures RecordOk(f, blocks[at], off, BLOCK) && Tiled(f, blocks[at], off + RecLen(blocks[at], off), BLOCK)
    ensures Rest(f, blocks, at, off) == One(blocks[at], off) + Rest(f, blocks, at, off + RecLen(blocks[at], off))
  {
    hide RecLen, One, Entries;
    var b := blocks[at];
    assert List(f, b, off, BLOCK) == One(b, off) + List(f, b, off + RecLen(b, off), BLOCK);
  }

  lemma RestEnd(f: Format, blocks: seq<Block>, at: nat)
    requires AllTiled(f, blocks) && at < |blocks| && Tiled(f, blocks[at], BLOCK, BLOCK)
    ensures AllTiled(f, blocks[at + 1..]) && Rest(f, blocks, at, BLOCK) == Entries(f, blocks[at + 1..])
  {
    hide RecLen, One, Entries;
    assert List(f, blocks[at], BLOCK, BLOCK) == [];
  }

  /** engine_getdents: one page of the listing, in `out`. */
  method Getdents(f: Format, blocks: seq<Block>, types: seq<Byte>, position: nat, out: array<Byte>) returns (r: int, next: nat)
    requires |types| == f.inodes + 1 < U32 && |blocks| <= DIRECT
    modifies out
    ensures r == -1 ==> !AllTiled(f, blocks)
    ensures r <= out.Length
    ensures AllTiled(f, blocks) ==> Encodable(Entries(f, blocks), types)
    ensures AllTiled(f, blocks) ==>
              Served(Entries(f, blocks), types, position, out.Length, r, next, if r > 0 then out[..r] else [])
  {
    hide Tiled, List, RecLen, Ino, One, Entries, Going, Rest, Served, Encode, DirentLen, Written;
    ghost var seen: seq<Dirent> := [];
    ghost var fine := AllTiled(f, blocks);
    ghost var es := if fine then Entries(f, blocks) else [];
    if fine {
      EntriesEncodable(f, blocks);
      GoingStart(es, types, position);
      assert blocks[0..] == blocks;
    }
    assert out[..0] == [];
    var index, written, current, at := position, 0, 0, 0;
    while at < |blocks|
      invariant at <= |blocks| && written <= out.Length && current <= 128 * at
      invariant fine ==> AllTiled(f, blocks[at..]) && Going(es, seen, Entries(f, blocks[at..]), types, position, index, current, out[..written])
    {
      var off, b := 0, blocks[at];
      Nothing(f, b, 0);
      if fine {
        EntriesFrom(f, blocks, at);
        RestIs(f, blocks, at);
      }
      while off < BLOCK
        invariant off <= BLOCK && written <= out.Length && current <= 128 * at + off / 8
        invariant fine ==> Tiled(f, b, off, BLOCK) && Going(es, seen, Rest(f, blocks, at, off), types, position, index, current, out[..written])
        decreases BLOCK - off
      {
        if fine {
          RestStep(f, blocks, at, off);
        }
        if !RecordOk(f, b, off, BLOCK) {
          return -1, index;
        }
        if Ino(b, off) != 0 {
          var d := Dirent(Ino(b, off), Name(b, off), b[off + 7]);
          ghost var rest := if fine then Rest(f, blocks, at, off + RecLen(b, off)) else [];
          if fine {
            OneLive(b, off, rest);
            GoingOn(es, seen, d, rest, types, position, index, current, out[..written]);
          }
          current := current + 1;
          if current - 1 >= index {
            if DirentLen(|d.name|) > out.Length - written {
              if fine {
                GoingFull(es, seen, d, rest, types, position, index, current - 1, out.Length, out[..written]);
              }
              return if written > 0 then written else -22, index;
            }
            ghost var before := out[..written];
            CopyTo(out, written, Encode(d, current, types));
            written, index := written + DirentLen(|d.name|), index + 1;
            assert out[..written] == before + Encode(d, current, types);
          }
          seen := seen + [d];
        } else if fine {
          OneDead(b, off, Rest(f, blocks, at, off + RecLen(b, off)));
        }
        off := off + RecLen(b, off);
      }
      if fine {
        RestEnd(f, blocks, at);
      }
      at := at + 1;
    }
    if fine {
      GoingEnd(f, es, seen, blocks[at..], types, position, index, current, out.Length, out[..written]);
    }
    return written, index;
  }

  lemma RestIs(f: Format, blocks: seq<Block>, at: nat)
    requires AllTiled(f, blocks) && at < |blocks| && Tiled(f, blocks[at], 0, BLOCK) && AllTiled(f, blocks[at + 1..])
    ensures Rest(f, blocks, at, 0) == List(f, blocks[at], 0, BLOCK) + Entries(f, blocks[at + 1..])
  {
  }

  lemma OneLive(b: Block, off: nat, rest: seq<Dirent>)
    requires off + 8 <= BLOCK && off + 8 + b[off + 6] <= BLOCK && Ino(b, off) != 0
    ensures One(b, off) + rest == [Dirent(Ino(b, off), Name(b, off), b[off + 7])] + rest
  {
  }

  lemma OneDead(b: Block, off: nat, rest: seq<Dirent>)
    requires off + 8 <= BLOCK && off + 8 + b[off + 6] <= BLOCK && Ino(b, off) == 0
    ensures One(b, off) + rest == rest
  {
  }

  lemma GoingFull(es: seq<Dirent>, seen: seq<Dirent>, d: Dirent, rest: seq<Dirent>, types: seq<Byte>, position: nat, index: nat, current: nat, capacity: nat, bytes: seq<Byte>)
    requires Going(es, seen, [d] + rest, types, position, index, current, bytes) && current >= index
    requires |bytes| <= capacity && DirentLen(|d.name|) > capacity - |bytes|
    ensures Encodable(es, types) && Served(es, types, position, capacity, if bytes == [] then -22 else |bytes|, index, bytes)
  {
    assert es == seen + [d] + rest;
    hide Encode, Written, Served, DirentLen;
    ServedFull(seen, d, rest, types, position, capacity, bytes);
  }

  lemma GoingEnd(f: Format, es: seq<Dirent>, seen: seq<Dirent>, none: seq<Block>, types: seq<Byte>, position: nat, index: nat, current: nat, capacity: nat, bytes: seq<Byte>)
    requires none == [] && AllTiled(f, none) && Going(es, seen, Entries(f, none), types, position, index, current, bytes) && |bytes| <= capacity
    ensures Encodable(es, types) && Served(es, types, position, capacity, |bytes|, index, bytes)
  {
    assert es == seen;
    hide Encode, Written, Served;
    ServedEnd(es, types, position, capacity, bytes);
  }
}
