/** fs.c: what the records of a directory should say, beyond being readable. A directory made by
    the engine is like this, and the engine's operations keep it so. */
module Ext2Tidy {
  import opened Bytes
  import opened Ext2Layout
  import opened Ext2Names
  import opened Ext2Dirs

  /** The type byte of a record, for the mode of the inode it names: 1 for a regular file, 2 for a
      directory, and always 0 without the feature. */
  predicate CodeOk(filetype: bool, kind: nat, code: Byte) {
    if !filetype then code == 0
    else (kind == 8 ==> code == 1) && (kind == 4 ==> code == 2)
  }

  /** The kind of inode: the upper four bits of its mode. */
  function Nibble(mode: nat): nat {
    mode / 0x1000 % 16
  }

  ghost function NamesOf(names: map<seq<Byte>, Binding>, n: nat): set<seq<Byte>> {
    set name | name in names && names[name].ino == n
  }

  /** What a directory should say of one inode. */
  ghost predicate WellNamed(v: Vol, filetype: bool, names: map<seq<Byte>, Binding>, b: Binding)
    requires v.geo.inodesPerGroup > 0
  {
    v.Live(b.ino) && CodeOk(filetype, Nibble(v.nodes[b.ino - 1].mode), b.code) && |NamesOf(names, b.ino)| <= v.nodes[b.ino - 1].links
  }

  ghost predicate TidyNames(v: Vol, filetype: bool, dir: nat, names: map<seq<Byte>, Binding>)
    requires v.geo.inodesPerGroup > 0
  {
    && [46] in names && names[[46]].ino == dir && [46, 46] in names
    && forall name :: name in names ==> 47 !in name && name != [] && WellNamed(v, filetype, names, names[name])
  }

  /** "." is the directory itself, ".." is there, no name holds a slash, every name is that of an inode
      in use which has links enough, and every record's type byte is right. */
  ghost predicate Tidy(v: Vol, filetype: bool, dir: nat) {
    v.Shape() && DirAt(v, filetype, dir) && TidyNames(v, filetype, dir, DirMap(v, filetype, dir))
  }

  /** On the disk: byte 7 of any record of a tidy directory. */
  lemma RecordTyped(v: Vol, filetype: bool, dir: nat, at: nat, off: nat, n: nat, name: seq<Byte>)
    requires Tidy(v, filetype, dir) && v.Shape() && DirAt(v, filetype, dir) && at < |DirBlocks(v, dir)|
    requires Here(FormatOf(v, filetype), DirBlocks(v, dir)[at], off, n, name)
    ensures off + 8 <= BLOCK && v.Live(n)
    ensures !filetype ==> DirBlocks(v, dir)[at][off + 7] == 0
    ensures filetype && v.nodes[n - 1].mode / 0x1000 % 16 == 8 ==> DirBlocks(v, dir)[at][off + 7] == 1
    ensures filetype && v.nodes[n - 1].mode / 0x1000 % 16 == 4 ==> DirBlocks(v, dir)[at][off + 7] == 2
  {
    hide DirOk, Dir, DirBlocks, Here, GroupSize, TablesOk, InodeUsed, Mapped;
    BoundAt(v, filetype, dir, at, off, n, name);
    assert WellNamed(v, filetype, DirMap(v, filetype, dir), DirMap(v, filetype, dir)[name]);
  }

  lemma BoundAt(v: Vol, filetype: bool, dir: nat, at: nat, off: nat, n: nat, name: seq<Byte>)
    requires v.Shape() && DirAt(v, filetype, dir) && at < |DirBlocks(v, dir)|
    requires Here(FormatOf(v, filetype), DirBlocks(v, dir)[at], off, n, name)
    ensures off + 8 <= BLOCK && name in DirMap(v, filetype, dir)
    ensures DirMap(v, filetype, dir)[name] == Binding(n, DirBlocks(v, dir)[at][off + 7])
  {
    hide DirBlocks, Here, GroupSize, TablesOk, InodeUsed, Mapped, Dir, DirOk;
    HereBinds(FormatOf(v, filetype), DirBlocks(v, dir), at, off, n, name);
  }

  predicate SameKind(a: nat, b: nat) {
    Nibble(a) == Nibble(b)
  }

  /** All inodes in use but `n` stay what they are, with no fewer links. */
  ghost predicate Heirs(v: Vol, w: Vol, n: nat)
    requires v.geo.inodesPerGroup > 0 && w.geo.inodesPerGroup > 0
  {
    forall m: nat :: v.Live(m) && m != n ==> w.Live(m) && SameKind(v.nodes[m - 1].mode, w.nodes[m - 1].mode) && w.nodes[m - 1].links >= v.nodes[m - 1].links
  }

  /** A new name for an inode that was not in use. */
  lemma TidyAdded(v: Vol, w: Vol, filetype: bool, dir: nat, names: map<seq<Byte>, Binding>, name: seq<Byte>, b: Binding)
    requires v.geo.inodesPerGroup > 0 && w.geo.inodesPerGroup > 0 && TidyNames(v, filetype, dir, names) && Heirs(v, w, b.ino)
    requires !v.Live(b.ino) && w.Live(b.ino) && w.nodes[b.ino - 1].links >= 1 && CodeOk(filetype, Nibble(w.nodes[b.ino - 1].mode), b.code)
    requires name !in names && name != [] && 47 !in name
    ensures TidyNames(w, filetype, dir, names[name := b])
  {
    hide CodeOk, Nibble, InodeUsed;
    var more := names[name := b];
    forall other | other in more ensures WellNamed(w, filetype, more, more[other]) {
      if other == name {
        assert NamesOf(more, b.ino) == {name} by {
          forall x | x in names ensures names[x].ino != b.ino {
            assert WellNamed(v, filetype, names, names[x]);
          }
        }
      } else {
        assert WellNamed(v, filetype, names, names[other]);
        assert NamesOf(more, names[other].ino) == NamesOf(names, names[other].ino);
      }
    }
  }

  /** The same inode under another name. */
  lemma TidyMoved(v: Vol, w: Vol, filetype: bool, dir: nat, names: map<seq<Byte>, Binding>, former: seq<Byte>, name: seq<Byte>, b: Binding)
    requires v.geo.inodesPerGroup > 0 && w.geo.inodesPerGroup > 0 && TidyNames(v, filetype, dir, names) && Heirs(v, w, 0)
    requires former in names && names[former].ino == b.ino && b.ino > 0 && w.Live(b.ino) && CodeOk(filetype, Nibble(w.nodes[b.ino - 1].mode), b.code)
    requires name !in names && name != [] && 47 !in name && former != [46] && former != [46, 46]
    ensures TidyNames(w, filetype, dir, (names - {former})[name := b])
  {
    hide WellNamed, NamesOf, InodeUsed;
    var more := (names - {former})[name := b];
    forall other | other in more ensures WellNamed(w, filetype, more, more[other]) {
      MovedOne(v, w, filetype, names, former, name, b, other);
    }
  }

  lemma MovedOne(v: Vol, w: Vol, filetype: bool, names: map<seq<Byte>, Binding>, former: seq<Byte>, name: seq<Byte>, b: Binding, other: seq<Byte>)
    requires v.geo.inodesPerGroup > 0 && w.geo.inodesPerGroup > 0 && Heirs(v, w, 0)
    requires former in names && names[former].ino == b.ino && b.ino > 0 && w.Live(b.ino) && CodeOk(filetype, Nibble(w.nodes[b.ino - 1].mode), b.code)
    requires name !in names && other in (names - {former})[name := b]
    requires WellNamed(v, filetype, names, names[if other == name then former else other])
    ensures WellNamed(w, filetype, (names - {former})[name := b], (names - {former})[name := b][other])
  {
    hide InodeUsed;
    MovedCount(names, former, name, b, (names - {former})[name := b][other].ino);
  }

  lemma MovedCount(names: map<seq<Byte>, Binding>, former: seq<Byte>, name: seq<Byte>, b: Binding, m: nat)
    requires former in names && names[former].ino == b.ino && name !in names
    ensures |NamesOf((names - {former})[name := b], m)| == |NamesOf(names, m)|
  {
    var more := (names - {former})[name := b];
    if m == b.ino {
      assert NamesOf(more, m) == NamesOf(names, m) - {former} + {name};
    } else {
      assert NamesOf(more, m) == NamesOf(names, m);
    }
  }

  /** A name less, and with it a link of its inode. */
  lemma TidyRemoved(v: Vol, w: Vol, filetype: bool, dir: nat, names: map<seq<Byte>, Binding>, name: seq<Byte>)
    requires v.geo.inodesPerGroup > 0 && w.geo.inodesPerGroup > 0 && TidyNames(v, filetype, dir, names)
    requires name in names && name != [46] && name != [46, 46] && Heirs(v, w, names[name].ino)
    requires var n := names[name].ino;
      v.Live(n) && if v.nodes[n - 1].links == 1 then !w.Live(n)
                   else w.Live(n) && w.nodes[n - 1].links == v.nodes[n - 1].links - 1 && SameKind(v.nodes[n - 1].mode, w.nodes[n - 1].mode)
    ensures TidyNames(w, filetype, dir, names - {name})
  {
    hide CodeOk, Nibble, InodeUsed;
    var n, less := names[name].ino, names - {name};
    assert WellNamed(v, filetype, names, names[name]);
    assert NamesOf(less, n) == NamesOf(names, n) - {name};
    assert name in NamesOf(names, n);
    forall other | other in less ensures WellNamed(w, filetype, less, less[other]) {
      assert WellNamed(v, filetype, names, names[other]);
      if less[other].ino == n {
        assert other in NamesOf(less, n);
        assert |NamesOf(less, n)| >= 1;
      } else {
        assert NamesOf(less, less[other].ino) == NamesOf(names, less[other].ino);
      }
    }
  }

  /** The names are the same. */
  lemma TidySame(v: Vol, w: Vol, filetype: bool, dir: nat, names: map<seq<Byte>, Binding>)
    requires v.geo.inodesPerGroup > 0 && w.geo.inodesPerGroup > 0 && TidyNames(v, filetype, dir, names) && Heirs(v, w, 0)
    ensures TidyNames(w, filetype, dir, names)
  {
    hide CodeOk, Nibble, InodeUsed;
    forall other | other in names ensures WellNamed(w, filetype, names, names[other]) {
      assert WellNamed(v, filetype, names, names[other]);
    }
  }

  /** A directory that was just made. */
  lemma TidyNew(w: Vol, filetype: bool, n: nat, parent: nat)
    requires w.geo.inodesPerGroup > 0 && w.Live(n) && w.Live(parent) && n != parent
    requires w.nodes[n - 1].mode / 0x1000 % 16 == 4 && w.nodes[parent - 1].mode / 0x1000 % 16 == 4
    requires w.nodes[n - 1].links >= 1 && w.nodes[parent - 1].links >= 1
    ensures TidyNames(w, filetype, n, NewNames(filetype, n, parent))
  {
    hide InodeUsed;
    var names := NewNames(filetype, n, parent);
    var dot, up: seq<Byte> := [46], [46, 46];
    assert dot != up by { assert |dot| != |up|; }
    assert NamesOf(names, n) == {dot} && NamesOf(names, parent) == {up};
  }

  /** A root directory that holds nothing else. */
  lemma TidyRoot(w: Vol, filetype: bool, n: nat)
    requires w.geo.inodesPerGroup > 0 && w.Live(n) && w.nodes[n - 1].mode / 0x1000 % 16 == 4 && w.nodes[n - 1].links >= 2
    ensures TidyNames(w, filetype, n, NewNames(filetype, n, n))
  {
    hide InodeUsed;
    var dot, up: seq<Byte> := [46], [46, 46];
    assert dot != up by { assert |dot| != |up|; }
    assert NamesOf(NewNames(filetype, n, n), n) == {dot, up};
  }
}
