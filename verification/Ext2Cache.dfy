/** fs.c: the block cache, begin and finish, over a device whose writes and reads may fail. */
module Ext2Cache {
  import opened Bytes
  import opened Ext2Layout
  import opened Ext2Mount
  import opened Ext2Commit
  import opened Ext2Durable

  /** A disk with a volatile write cache: `log` is everything issued since it was attached. */
  class Medium {
    const initial: Disk
    const writeFails: nat -> bool
    const unreadable: nat -> bool
    var log: seq<Op>

    constructor (disk: Disk, writeFaults: nat -> bool, badSectors: nat -> bool)
      requires DiskOk(disk)
      ensures initial == disk && log == []
    {
      initial, writeFails, unreadable, log := disk, writeFaults, badSectors, [];
    }

    function Now(): Disk
      reads this
    {
      Run(initial, log)
    }

    /** A failed write may or may not have reached the medium. */
    method Write(lba: nat, bytes: seq<Byte>) returns (failed: bool)
      modifies this
      ensures log == old(log) + [Op.Write(lba, bytes)]
    {
      failed := writeFails(|log|);
      log := log + [Op.Write(lba, bytes)];
    }

    /** A failed flush is no barrier. */
    method Flush() returns (failed: bool)
      modifies this
      ensures log == if failed then old(log) else old(log) + [Op.Flush]
    {
      failed := writeFails(|log|);
      if !failed { log := log + [Op.Flush]; }
    }

    /** disk_read_many of one block. */
    method ReadBlock(n: nat) returns (failed: bool, data: seq<Byte>)
      requires DiskOk(Now())
      ensures !failed ==> 2 * n + 1 < |Now()| && data == Now()[2 * n] + Now()[2 * n + 1]
      ensures failed <==> 2 * n + 1 >= |Now()| || unreadable(2 * n) || unreadable(2 * n + 1)
      ensures failed ==> data == []
    {
      if 2 * n + 1 >= |Now()| || unreadable(2 * n) || unreadable(2 * n + 1) {
        return true, [];
      }
      return false, Now()[2 * n] + Now()[2 * n + 1];
    }
  }

  class BlockCache {
    const device: Medium
    const geo: Geometry
    const groups: nat
    /** Where the bitmaps and inode tables are; the engine never moves them. */
    ghost const layout: seq<Group>

    var super: seq<Byte>
    var table: seq<Byte>
    var savedSuper: seq<Byte>
    var savedTable: seq<Byte>
    var entries: seq<Entry>
    var error: bool
    var mounted: bool

    /** The volumes committed since mounting, and the one a commit is working towards. */
    ghost var history: seq<Committed>
    ghost var attempt: Disk

    /** Sectors of the descriptor table. */
    function TableSectors(): nat {
      2 * geo.descriptorBlocks
    }

    ghost predicate Mounting() {
      Laid(geo, layout) && groups == |layout|
    }

    /** Wherever the machine stops, the disk holds a committed volume, the one being
        committed, or one that mounting refuses. */
    ghost predicate Safe()
      reads this, device
    {
      Durable(device.initial, device.log, history, attempt)
    }

    /** Nothing is under way: the last committed volume is what the device holds, flushed. */
    ghost predicate AtRest()
      reads this, device
    {
      && Safe() && Flushed(device.log) == |device.log|
      && Last(history) == Committed(|device.log|, device.Now()) && attempt == device.Now()
    }

    /** The cached blocks are what the disk held when they were loaded, and none of them is
        part of the superblock or the descriptor table. */
    ghost predicate Sound()
      reads this, device
    {
      && Mounting() && DiskOk(device.Now()) && CacheOk(entries, device.Now(), Reserved(geo))
      && |entries| <= CACHE_BLOCKS
    }

    /** Between operations: superblock and descriptors are those on disk. */
    ghost predicate Settled()
      reads this, device
    {
      && Mounting() && AtRest()
      && Mirrors(device.Now(), [], super, table, TableSectors()) && groups * 32 <= |table|
    }

    /** During an operation: the saved images are those on disk. */
    ghost predicate Valid()
      reads this, device
    {
      && Sound() && AtRest()
      && Mirrors(device.Now(), [], savedSuper, savedTable, TableSectors())
      && |super| == BLOCK && |table| == |savedTable|
      && groups * 32 <= |table| && table[groups * 32..] == savedTable[groups * 32..]
    }

    ghost predicate Untouched()
      reads this
    {
      forall i :: 0 <= i < |entries| ==> entries[i].data == entries[i].before
    }

    /** Nothing modified since `begin`. */
    ghost predicate Clean()
      reads this
    {
      super == savedSuper && table == savedTable && Untouched()
    }

    /** A freshly mounted volume: superblock and descriptors as read, nothing cached. */
    constructor (disk: Medium, geometry: Geometry, ghost descriptors: seq<Group>, groupCount: nat, image: seq<Byte>)
      requires DiskOk(disk.Now()) && Flushed(disk.log) == |disk.log|
      requires Laid(geometry, descriptors) && groupCount == |descriptors|
      requires DESCRIPTORS_LBA + 2 * geometry.descriptorBlocks <= |disk.Now()|
      requires 2 * geometry.descriptorBlocks * SECTOR <= |image| && groupCount * 32 <= |image|
      requires forall s :: 0 <= s < 2 * geometry.descriptorBlocks ==> TableSector(image, s) == disk.Now()[DESCRIPTORS_LBA + s]
      ensures Settled() && Valid() && Clean() && device == disk && geo == geometry && groups == groupCount && layout == descriptors
      ensures mounted && !error && entries == []
    {
      device, geo, groups, layout := disk, geometry, groupCount, descriptors;
      super := disk.Now()[SUPER_LBA] + disk.Now()[SUPER_LBA + 1];
      savedSuper := disk.Now()[SUPER_LBA] + disk.Now()[SUPER_LBA + 1];
      table, savedTable, entries, error, mounted := image, image, [], false, true;
      history, attempt := [Committed(|disk.log|, disk.Now())], disk.Now();
      DurableFirst(disk.initial, disk.log);
    }

    /** cache_reset, at the start of every public operation: every block reads as on disk. */
    method Reset()
      requires Settled()
      modifies `entries, `error
      ensures Settled() && Sound() && Untouched() && entries == [] && !error
      ensures forall n :: 0 <= n && 2 * n + 1 < |device.Now()| ==> View(n) == device.Now()[2 * n] + device.Now()[2 * n + 1]
    {
      hide Durable;
      entries, error := [], false;
    }

    /** The end of a public operation: an unreadable block unmounts. */
    method Conclude()
      modifies `mounted
      ensures mounted == (old(mounted) && !error)
    {
      if error { mounted := false; }
    }

    /** What the file-system code sees of block `n`: its cached data, or the disk's. */
    ghost function View(n: nat): seq<Byte>
      requires 2 * n + 1 < |device.Now()|
      reads this, device
    {
      var i := CachedAt(entries, 2 * n);
      if i >= 0 then entries[i].data else device.Now()[2 * n] + device.Now()[2 * n + 1]
    }

    /** block(), for the numbers the engine uses: the slot of block `n`, loading it if
        needed; -1 stands for the scratch block handed out, with the error flag set, when
        that is impossible. */
    method Block(n: nat) returns (slot: int)
      requires Sound() && Addressed(geo, layout, n)
      modifies `entries, `error
      ensures Sound()
      ensures -1 <= slot < |entries|
      ensures slot >= 0 ==> entries[slot].block == n && error == old(error)
      ensures slot >= 0 ==> 2 * n + 1 < |device.Now()| && entries[slot].data == old(View(n))
      ensures slot < 0 ==> error && entries == old(entries)
      ensures slot < 0 ==> n >= geo.blocks || |entries| == 2048 || 2 * n + 1 >= |device.Now()| || device.unreadable(2 * n) || device.unreadable(2 * n + 1)
      ensures slot >= |old(entries)| ==> n < geo.blocks && |old(entries)| != 2048
      ensures old(entries) <= entries && |entries| <= |old(entries)| + 1
      ensures old(Valid()) ==> Valid()
      ensures old(Untouched()) ==> Untouched()
    {
      hide Durable, Addressed, Laid;
      Apart(n);
      var i := 0;
      while i < |entries|
        invariant i <= |entries|
        invariant forall k :: 0 <= k < i ==> entries[k].block != n
      {
        if entries[i].block == n {
          CachedUnique(entries, i, n);
          return i;
        }
        i := i + 1;
      }
      NotCached(entries, n);
      if n >= geo.blocks || |entries| == CACHE_BLOCKS {
        error := true;
        return -1;
      }
      var failed, data := device.ReadBlock(n);
      if failed {
        error := true;
        return -1;
      }
      slot := |entries|;
      entries := entries + [Entry(n, data, data)];
    }

    lemma Apart(n: nat)
      requires Mounting() && Addressed(geo, layout, n)
      ensures n >= Reserved(geo)
    {
      AddressedApart(geo, layout, n);
    }

    /** A store through a pointer into a cached block. */
    method Store(slot: nat, data: seq<Byte>)
      requires Valid() && slot < |entries| && |data| == BLOCK
      modifies `entries
      ensures Valid()
      ensures entries == old(entries)[slot := old(entries)[slot].(data := data)]
    {
      hide Durable;
      entries := entries[slot := entries[slot].(data := data)];
    }

    /** Stores into the superblock and the descriptors of existing groups. */
    method StoreMetadata(newSuper: seq<Byte>, newTable: seq<Byte>)
      requires Valid() && |newSuper| == BLOCK && |newTable| == |table|
      requires newTable[groups * 32..] == table[groups * 32..]
      modifies `super, `table
      ensures Valid() && super == newSuper && table == newTable
    {
      hide Durable, CacheOk;
      super, table := newSuper, newTable;
    }

    /** begin, after a reset and perhaps some reading. */
    method Begin() returns (r: int)
      requires Settled() && Sound() && Untouched()
      modifies `savedSuper, `savedTable
      ensures Settled() && (r == 0 ==> Valid() && Clean())
      ensures r == if !mounted || error then -1 else 0
    {
      hide Durable, CacheOk;
      if !mounted || error { return -1; }
      savedSuper := super;
      savedTable := table;
      r := 0;
    }

    /** Every operation a commit of the current contents is made of. */
    ghost function Commit(): seq<Op>
      requires Valid()
      reads this, device
    {
      FinishOps(entries, super, savedSuper, table, savedTable, TableSectors())
    }

    method WriteEntry(e: Entry) returns (failed: bool)
      requires |e.data| == BLOCK && |e.before| == BLOCK
      modifies device
      ensures old(device.log) <= device.log <= old(device.log) + EntryOps(e)
      ensures !failed ==> device.log == old(device.log) + EntryOps(e)
    {
      failed := false;
      if Half(e.data, 0) != Half(e.before, 0) {
        failed := device.Write(2 * e.block, Half(e.data, 0));
        if failed { return; }
      }
      if Half(e.data, 1) != Half(e.before, 1) {
        failed := device.Write(2 * e.block + 1, Half(e.data, 1));
      }
    }

    method WriteCache() returns (failed: bool)
      requires forall i :: 0 <= i < |entries| ==> |entries[i].data| == BLOCK && |entries[i].before| == BLOCK
      modifies device
      ensures old(device.log) <= device.log <= old(device.log) + CacheOps(entries)
      ensures !failed ==> device.log == old(device.log) + CacheOps(entries)
    {
      hide CacheOps, EntryOps;
      failed := false;
      CacheOpsPrefix(entries, 0);
      NoEntries(entries);
      for i := 0 to |entries|
        invariant !failed && device.log == old(device.log) + CacheOps(entries[..i])
      {
        CacheOpsStep(entries, i);
        failed := WriteEntry(entries[i]);
        if failed { return; }
      }
      assert entries[..|entries|] == entries;
    }

    method WriteTable() returns (failed: bool)
      requires TableSectors() * SECTOR <= |table| == |savedTable|
      modifies device
      ensures old(device.log) <= device.log <= old(device.log) + DescriptorOps(table, savedTable, TableSectors())
      ensures !failed ==> device.log == old(device.log) + DescriptorOps(table, savedTable, TableSectors())
    {
      failed := false;
      var tableSectors := TableSectors();
      ghost var log, all := device.log, DescriptorOps(table, savedTable, tableSectors);
      assert DescriptorOps(table, savedTable, 0) == [];
      hide DescriptorOps, SectorOps, TableSector;
      for s := 0 to tableSectors
        invariant !failed && device.log == log + DescriptorOps(table, savedTable, s)
      {
        DescriptorOpsStep(table, savedTable, s, tableSectors);
        ghost var before := device.log;
        failed := WriteSector(s);
        if failed {
          PrefixChain(log, DescriptorOps(table, savedTable, s), SectorOps(table, savedTable, s), device.log, all);
          return;
        }
      }
    }

    method WriteSector(s: nat) returns (failed: bool)
      requires (s + 1) * SECTOR <= |table| == |savedTable|
      modifies device
      ensures old(device.log) <= device.log <= old(device.log) + SectorOps(table, savedTable, s)
      ensures !failed ==> device.log == old(device.log) + SectorOps(table, savedTable, s)
    {
      failed := false;
      if TableSector(table, s) != TableSector(savedTable, s) {
        failed := device.Write(DESCRIPTORS_LBA + s, TableSector(table, s));
      }
    }

    method WriteTail() returns (failed: bool)
      requires |super| == |savedSuper| == BLOCK
      modifies device
      ensures old(device.log) <= device.log <= old(device.log) + TailOps(super, savedSuper)
      ensures !failed ==> device.log == old(device.log) + TailOps(super, savedSuper)
    {
      failed := false;
      if Half(super, 1) != Half(savedSuper, 1) {
        failed := device.Write(SUPER_LBA + 1, Half(super, 1));
      }
    }

    method WriteBody() returns (failed: bool)
      requires |super| == |savedSuper| == BLOCK && TableSectors() * SECTOR <= |table| == |savedTable|
      requires forall i :: 0 <= i < |entries| ==> |entries[i].data| == BLOCK && |entries[i].before| == BLOCK
      modifies device
      ensures old(device.log) <= device.log <= old(device.log) + BodyOps(entries, super, savedSuper, table, savedTable, TableSectors())
      ensures !failed ==> device.log == old(device.log) + BodyOps(entries, super, savedSuper, table, savedTable, TableSectors())
    {
      hide CacheOps, DescriptorOps, TailOps, Half;
      failed := WriteCache();
      if failed { return; }
      failed := WriteTable();
      if failed { return; }
      failed := WriteTail();
    }

    /** First barrier: the volume is marked as being written. */
    method MarkDirty() returns (failed: bool)
      requires |super| == BLOCK
      modifies device, `super
      ensures super == Marked(old(super), DIRTY)
      ensures old(device.log) <= device.log <= old(device.log) + DirtyOps(old(super))
      ensures !failed ==> device.log == old(device.log) + DirtyOps(old(super))
    {
      hide Half, Marked;
      super := Marked(super, DIRTY);
      failed := device.Write(SUPER_LBA, Half(super, 0));
      if failed { return; }
      failed := device.Flush();
    }

    /** Second barrier, then the clean state and a last flush. */
    method MarkClean() returns (failed: bool)
      requires |super| == BLOCK && Marked(super, CLEAN) == super
      modifies device
      ensures old(device.log) <= device.log <= old(device.log) + CleanOps(super)
      ensures !failed ==> device.log == old(device.log) + CleanOps(super)
    {
      hide Half, Marked;
      failed := device.Flush();
      if failed { return; }
      failed := device.Write(SUPER_LBA, Half(super, 0));
      if failed { return; }
      failed := device.Flush();
    }

    /** The success path of finish: barrier, writes, barrier, state. */
    method WriteBack() returns (r: int)
      requires Valid()
      modifies device, `super, `mounted
      ensures old(device.log) <= device.log <= old(device.log + Commit())
      ensures r == 0 ==> device.log == old(device.log + Commit()) && super == Marked(old(super), CLEAN) && mounted == old(mounted)
      ensures r != 0 ==> r == -1 && !mounted
    {
      hide BodyOps, Half, Marked, Mirrors, Flushed, FinishOps, DirtyOps, CleanOps, Valid, Durable;
      EntriesOk();
      FinishParts(entries, super, savedSuper, table, savedTable, TableSectors());
      BodyIgnoresState(entries, super, savedSuper, table, savedTable, TableSectors());
      SameClean(super);
      var failed := MarkDirty();
      if !failed {
        super := Marked(super, CLEAN);
        failed := WriteBody();
        if !failed {
          failed := MarkClean();
        }
      }
      if failed {
        mounted := false;
        return -1;
      }
      r := 0;
    }

    lemma EntriesOk()
      requires Valid()
      ensures forall i :: 0 <= i < |entries| ==> |entries[i].data| == BLOCK && |entries[i].before| == BLOCK
      ensures |super| == |savedSuper| == BLOCK && TableSectors() * SECTOR <= |savedTable| == |table| && groups * 32 <= |table|
      ensures table[groups * 32..] == savedTable[groups * 32..]
      ensures Mirrors(device.Now(), entries, savedSuper, savedTable, TableSectors())
      ensures AtRest()
    {
      hide Durable;
    }

    predicate Unchanged()
      requires groups * 32 <= |table| && groups * 32 <= |savedTable|
      reads this
    {
      && super == savedSuper && table[..groups * 32] == savedTable[..groups * 32]
      && forall i :: 0 <= i < |entries| ==> entries[i].data == entries[i].before
    }

    /** Copy every before-image back. */
    method Restore()
      requires Valid()
      modifies `super, `table, `entries
      ensures Valid() && Clean() && super == savedSuper && table == savedTable
    {
      hide Durable;
      super := savedSuper;
      table := savedTable;
      ghost var cached := entries;
      var i := 0;
      while i < |entries|
        invariant i <= |entries| == |cached| && super == savedSuper && table == savedTable
        invariant forall k :: 0 <= k < i ==> entries[k] == cached[k].(data := cached[k].before)
        invariant forall k :: i <= k < |entries| ==> entries[k] == cached[k]
      {
        entries := entries[i := entries[i].(data := entries[i].before)];
        i := i + 1;
      }
    }

    /** With nothing modified, the file-system code sees the disk. */
    lemma CleanView(n: nat)
      requires Sound() && Untouched() && 2 * n + 1 < |device.Now()|
      ensures View(n) == device.Now()[2 * n] + device.Now()[2 * n + 1]
    {
    }

    /** Nothing changed means nothing changed anywhere, table tail included. */
    lemma UnchangedClean()
      requires Valid() && Unchanged()
      ensures Clean()
    {
      hide Durable, Sound;
      assert table == table[..groups * 32] + table[groups * 32..];
      assert savedTable == savedTable[..groups * 32] + savedTable[groups * 32..];
    }

    lemma CleanSettled()
      requires Valid() && Clean()
      ensures Settled() && Sound() && Untouched()
    {
      hide Durable, CacheOk;
    }

    /** Reads after a clean end see the last committed volume. */
    lemma CleanReads()
      requires Sound() && Untouched()
      ensures forall n :: 0 <= n && 2 * n + 1 < |device.Now()| ==> View(n) == device.Now()[2 * n] + device.Now()[2 * n + 1]
    {
      forall n | 0 <= n && 2 * n + 1 < |device.Now()| ensures View(n) == device.Now()[2 * n] + device.Now()[2 * n + 1] {
        CleanView(n);
      }
    }

    /** finish. A failed operation is undone in memory and writes nothing; an unchanged
        one writes nothing; otherwise the device receives the commit, up to its first
        failure, which unmounts. Either way a crash at any moment of the whole mount leaves
        a committed volume, the one being committed, or a refused one; and unless the
        device failed the next operation starts from the last committed volume. */
    method Finish(result: int) returns (r: int)
      requires Valid()
      modifies this, device
      ensures Safe() && (r == 0 || mounted ==> Settled())
      ensures result != 0 || old(error) ==>
        && r == -1 && device.log == old(device.log) && Settled() && Sound() && history == old(history)
        && super == old(savedSuper) && table == old(savedTable) && mounted == old(mounted)
        && forall n :: 0 <= n && 2 * n + 1 < |device.Now()| ==> View(n) == device.Now()[2 * n] + device.Now()[2 * n + 1]
      ensures result == 0 && !old(error) && old(Unchanged()) ==>
        r == 0 && device.log == old(device.log) && history == old(history) && mounted == old(mounted)
      ensures result == 0 && !old(error) && !old(Unchanged()) ==>
        && old(device.log) <= device.log <= old(device.log + Commit())
        && IsNew(attempt, old(device.Now()), old(entries), old(super), old(table), TableSectors())
        && (r == 0 ==> device.Now() == attempt && mounted == old(mounted)
                       && history == old(history) + [Committed(|device.log|, attempt)])
        && (r != 0 ==> r == -1 && !mounted && history == old(history))
    {
      hide Crash, Run, FinishOps, Mirrors, IsNew, Valid, Clean, Sound, Settled, AtRest, Durable, View, Unchanged;
      if result != 0 || error {
        Restore();
        CleanSettled();
        CleanReads();
        RestSafe();
        return -1;
      }
      EntriesOk();
      var changed := Changed();
      if !changed {
        UnchangedClean();
        CleanSettled();
        RestSafe();
        return 0;
      }
      r := CommitAll();
    }

    lemma RestSafe()
      requires Settled()
      ensures Safe()
    {
    }

    /** The comparison loop of finish. */
    method Changed() returns (changed: bool)
      requires groups * 32 <= |table| && groups * 32 <= |savedTable|
      ensures changed == !Unchanged()
    {
      if super != savedSuper || table[..groups * 32] != savedTable[..groups * 32] { return true; }
      for i := 0 to |entries|
        invariant forall k :: 0 <= k < i ==> entries[k].data == entries[k].before
      {
        if entries[i].data != entries[i].before { return true; }
      }
      changed := false;
    }

    /** The rest of finish, seen from the whole mount. */
    method CommitAll() returns (r: int)
      requires Valid()
      modifies device, `super, `mounted, `history, `attempt
      ensures Safe() && (r == 0 ==> Settled())
      ensures old(device.log) <= device.log <= old(device.log + Commit())
      ensures |old(super)| == BLOCK && TableSectors() * SECTOR <= |old(table)|
      ensures forall i :: 0 <= i < |old(entries)| ==> |old(entries)[i].data| == BLOCK
      ensures IsNew(attempt, old(device.Now()), old(entries), old(super), old(table), TableSectors())
      ensures r == 0 ==> device.Now() == attempt && mounted == old(mounted)
                         && history == old(history) + [Committed(|device.log|, attempt)]
      ensures r != 0 ==> r == -1 && !mounted && history == old(history)
    {
      hide Crash, Run, FinishOps, Mirrors, IsNew, Valid, Settled, AtRest, Durable, Flushed;
      EntriesOk();
      RestFacts();
      ghost var log, disk, cache, sb, gd, n := device.log, device.Now(), entries, super, table, TableSectors();
      ghost var commit := Commit();
      CommitComplete(cache, disk, sb, savedSuper, gd, savedTable, n);
      r := WriteBack();
      attempt := Run(disk, commit);
      ghost var issued := device.log[|log|..];
      assert device.log == log + issued && issued <= commit;
      AttemptOneOf(disk, cache, sb, savedSuper, gd, savedTable, n, issued, attempt);
      DurableGrows(device.initial, log, history, issued, attempt);
      if r == 0 {
        RunAppend(device.initial, log, commit);
        CommitEnds(cache, sb, savedSuper, gd, savedTable, n);
        FlushedEnd(log, commit);
        DurableCommitted(device.initial, device.log, history, attempt);
        history := history + [Committed(|device.log|, attempt)];
        NewMirrors(attempt, disk, cache, sb, savedSuper, gd, savedTable, n);
        NowSettled();
      }
    }

    lemma RestFacts()
      requires Valid()
      ensures history != [] && Durable(device.initial, device.log, history, Last(history).volume)
      ensures Flushed(device.log) == |device.log| && Last(history) == Committed(|device.log|, device.Now())
      ensures Mounting() && device.Now() == Run(device.initial, device.log)
    {
    }

    lemma NowSettled()
      requires Mounting() && Durable(device.initial, device.log, history, attempt) && Flushed(device.log) == |device.log|
      requires history != [] && Last(history) == Committed(|device.log|, device.Now()) && attempt == device.Now()
      requires Mirrors(device.Now(), [], super, table, TableSectors()) && groups * 32 <= |table|
      ensures Settled()
    {
    }

    /** What a completed operation wrote is never lost. */
    lemma CompletedSurvive(lost: set<nat>)
      requires Settled()
      ensures Crash(device.initial, device.log, lost) == Last(history).volume
    {
      hide Durable;
      Survives(device.initial, device.log, lost);
    }

    /** Crash safety of a whole mount, through any sequence of operations: cut after `k`
        operations of the device, between the `j`th commit and the next. */
    lemma CrashSafe(j: nat, k: nat, lost: set<nat>)
      requires Safe() && Between(device.log, history, j, k)
      ensures var after := Crash(device.initial, device.log[..k], lost);
        after == history[j].volume || after == Next(history, j, attempt) || IsDirty(after)
    {
      assert OneOf(Crash(device.initial, device.log[..k], lost), history[j].volume, Next(history, j, attempt));
    }
  }

  /** Each prefix of a commit, crashed, is the old volume, the attempted one, or refused. */
  lemma AttemptOneOf(disk: Disk, cache: seq<Entry>, super: seq<Byte>, savedSuper: seq<Byte>, table: seq<Byte>, savedTable: seq<Byte>,
                     n: nat, issued: seq<Op>, attempt: Disk)
    requires Mirrors(disk, cache, savedSuper, savedTable, n) && |super| == BLOCK && |table| == |savedTable|
    requires issued <= FinishOps(cache, super, savedSuper, table, savedTable, n)
    requires IsNew(attempt, disk, cache, super, table, n)
    ensures forall k, lost: set<nat> :: 0 <= k <= |issued| ==> OneOf(Crash(disk, issued[..k], lost), disk, attempt)
  {
    CrashAnywhere(cache, disk, super, savedSuper, table, savedTable, n, issued);
    hide Crash, FinishOps, IsNew, IsDirty;
    forall k, lost: set<nat> | 0 <= k <= |issued| ensures OneOf(Crash(disk, issued[..k], lost), disk, attempt) {
      var after := Crash(disk, issued[..k], lost);
      assert Recoverable(after, disk, cache, super, table, n);
      if IsNew(after, disk, cache, super, table, n) {
        NewIsOne(after, attempt, disk, cache, super, table, n);
      }
    }
  }

  lemma NoEntries(cache: seq<Entry>)
    requires forall j :: 0 <= j < |cache| ==> |cache[j].data| == BLOCK && |cache[j].before| == BLOCK
    ensures CacheOps(cache[..0]) == []
  {
  }

  lemma SameClean(super: seq<Byte>)
    requires |super| == BLOCK
    ensures CleanOps(Marked(super, CLEAN)) == CleanOps(super)
    ensures Marked(Marked(super, DIRTY), CLEAN) == Marked(super, CLEAN) == Marked(Marked(super, CLEAN), CLEAN)
  {
    MarkedTail(super, CLEAN);
    MarkedTail(super, DIRTY);
  }

  /** A piece cut short inside a list of operations is a prefix of the list. */
  lemma PrefixChain(log: seq<Op>, done: seq<Op>, next: seq<Op>, now: seq<Op>, all: seq<Op>)
    requires log + done <= now <= log + done + next && done + next <= all
    ensures log <= now <= log + all
  {
    assert log + done + next == log + (done + next);
  }

  lemma CommitEnds(cache: seq<Entry>, super: seq<Byte>, savedSuper: seq<Byte>, table: seq<Byte>, savedTable: seq<Byte>, n: nat)
    requires forall i :: 0 <= i < |cache| ==> |cache[i].data| == BLOCK && |cache[i].before| == BLOCK
    requires |super| == |savedSuper| == BLOCK && n * SECTOR <= |table| == |savedTable|
    ensures var ops := FinishOps(cache, super, savedSuper, table, savedTable, n); ops != [] && ops[|ops| - 1].Flush?
  {
  }

  lemma BodyIgnoresState(cache: seq<Entry>, super: seq<Byte>, savedSuper: seq<Byte>, table: seq<Byte>, savedTable: seq<Byte>, n: nat)
    requires forall i :: 0 <= i < |cache| ==> |cache[i].data| == BLOCK && |cache[i].before| == BLOCK
    requires |super| == |savedSuper| == BLOCK && n * SECTOR <= |table| == |savedTable|
    ensures BodyOps(cache, Marked(super, CLEAN), savedSuper, table, savedTable, n) == BodyOps(cache, super, savedSuper, table, savedTable, n)
  {
    MarkedTail(super, CLEAN);
  }

  lemma {:induction false} CachedUnique(entries: seq<Entry>, i: nat, n: nat)
    requires i < |entries| && entries[i].block == n
    requires forall a, b :: 0 <= a < b < |entries| ==> entries[a].block != entries[b].block
    ensures CachedAt(entries, 2 * n) == i
  {
    if i < |entries| - 1 {
      CachedUnique(entries[..|entries| - 1], i, n);
    }
  }

  lemma {:induction false} NotCached(entries: seq<Entry>, n: nat)
    requires forall k :: 0 <= k < |entries| ==> entries[k].block != n
    ensures CachedAt(entries, 2 * n) == -1
  {
    if entries != [] {
      NotCached(entries[..|entries| - 1], n);
    }
  }
}
