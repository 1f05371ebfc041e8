/** fs.c over many operations: what a crash at any moment of a mount can leave on the disk. */
module Ext2Durable {
  import opened Bytes
  import opened Ext2Layout
  import opened Ext2Commit

  /** A volume that was wholly on the medium once `at` operations had been issued. */
  datatype Committed = Committed(at: nat, volume: Disk)

  /** The disk holds one of two volumes, or carries the marker that mounting refuses. */
  ghost predicate OneOf(after: Disk, now: Disk, next: Disk) {
    after == now || after == next || IsDirty(after)
  }

  /** Wherever a crash cuts the log, and whatever unflushed writes it loses, the disk holds
      the last volume committed before that point, or the one whose commit was under way
      (the next in the history, or `attempt`), or it is refused. */
  ghost predicate Durable(initial: Disk, log: seq<Op>, history: seq<Committed>, attempt: Disk) {
    && history != [] && history[|history| - 1].at <= |log|
    && (forall j :: 0 < j < |history| ==> history[j - 1].at <= history[j].at)
    && forall j: nat, k: nat, lost: set<nat> :: Between(log, history, j, k) ==>
         OneOf(Crash(initial, log[..k], lost), history[j].volume, Next(history, j, attempt))
  }

  /** The log was cut after the `j`th commit, before the next. */
  predicate Between(log: seq<Op>, history: seq<Committed>, j: nat, k: nat) {
    j < |history| && history[j].at <= k <= |log| && (j + 1 < |history| ==> k < history[j + 1].at)
  }

  function Next(history: seq<Committed>, j: nat, attempt: Disk): Disk {
    if j + 1 < |history| then history[j + 1].volume else attempt
  }

  function Last(history: seq<Committed>): Committed
    requires history != []
  {
    history[|history| - 1]
  }

  lemma {:induction false} KeptShift(ops: seq<Op>, first: nat, flushed: nat, lost: set<nat>, skip: nat, shifted: set<nat>)
    requires forall i: nat :: i + skip in lost <==> i in shifted
    ensures Kept(ops, first + skip, flushed + skip, lost) == Kept(ops, first, flushed, shifted)
  {
    if ops != [] {
      KeptShift(ops[..|ops| - 1], first, flushed, lost, skip, shifted);
      assert (first + |ops| - 1) + skip in lost <==> first + |ops| - 1 in shifted;
    }
  }

  lemma {:induction false} FlushedAppend(a: seq<Op>, b: seq<Op>)
    requires Flushed(a) == |a|
    ensures Flushed(a + b) == |a| + Flushed(b)
    decreases |b|
  {
    if b == [] {
      assert a + b == a;
    } else {
      var n := |b| - 1;
      FlushedAppend(a, b[..n]);
      assert (a + b)[..|a| + n] == a + b[..n];
    }
  }

  /** After a flush a crash can only undo what came later. */
  lemma CrashAcross(disk: Disk, a: seq<Op>, b: seq<Op>, lost: set<nat>) returns (later: set<nat>)
    requires Flushed(a) == |a|
    ensures Crash(disk, a + b, lost) == Crash(Run(disk, a), b, later)
  {
    hide Run, Kept, Flushed;
    later := set i | i in lost && i >= |a| :: i - |a|;
    forall i: nat ensures i + |a| in lost <==> i in later {
      if i + |a| in lost {
        assert i + |a| - |a| in later;
      }
    }
    FlushedAppend(a, b);
    KeptConcat(a, b, 0, |a| + Flushed(b), lost);
    KeptAll(a, 0, |a| + Flushed(b), lost);
    KeptShift(b, 0, Flushed(b), lost, |a|, later);
    RunAppend(disk, a, Kept(b, 0, Flushed(b), later));
  }

  /** More of the log, as part of one commit. */
  lemma DurableGrows(initial: Disk, log: seq<Op>, history: seq<Committed>, issued: seq<Op>, attempt: Disk)
    requires history != [] && Durable(initial, log, history, Last(history).volume)
    requires Flushed(log) == |log| && Last(history) == Committed(|log|, Run(initial, log))
    requires forall k, lost: set<nat> :: 0 <= k <= |issued| ==>
      OneOf(Crash(Run(initial, log), issued[..k], lost), Run(initial, log), attempt)
    ensures Durable(initial, log + issued, history, attempt)
  {
    hide Crash, Run, Flushed, OneOf;
    var all := log + issued;
    forall j: nat, k: nat, lost: set<nat> | Between(all, history, j, k)
      ensures OneOf(Crash(initial, all[..k], lost), history[j].volume, Next(history, j, attempt))
    {
      if j + 1 < |history| {
        OrderedTo(history, j + 1);
        assert all[..k] == log[..k] && Between(log, history, j, k);
      } else {
        assert all[..k] == log + issued[..k - |log|];
        var later := CrashAcross(initial, log, issued[..k - |log|], lost);
      }
    }
  }

  lemma {:induction false} OrderedTo(history: seq<Committed>, j: nat)
    requires j < |history| && forall i :: 0 < i < |history| ==> history[i - 1].at <= history[i].at
    ensures history[j].at <= Last(history).at
    decreases |history| - j
  {
    if j < |history| - 1 {
      OrderedTo(history, j + 1);
    }
  }

  /** A commit that reached its last flush is the new last volume. */
  lemma DurableCommitted(initial: Disk, log: seq<Op>, history: seq<Committed>, attempt: Disk)
    requires Durable(initial, log, history, attempt) && Flushed(log) == |log| && Run(initial, log) == attempt
    ensures Durable(initial, log, history + [Committed(|log|, attempt)], attempt)
  {
    hide Crash, Run, Flushed, OneOf;
    var longer := history + [Committed(|log|, attempt)];
    forall j: nat, k: nat, lost: set<nat> | Between(log, longer, j, k)
      ensures OneOf(Crash(initial, log[..k], lost), longer[j].volume, Next(longer, j, attempt))
    {
      if j < |history| {
        assert Between(log, history, j, k);
      } else {
        Survives(initial, log, lost);
        assert log[..k] == log;
        SameIsOne(attempt, attempt);
      }
    }
  }

  lemma SameIsOne(now: Disk, next: Disk)
    ensures OneOf(now, now, next)
  {
  }

  /** What was flushed survives every crash. */
  lemma Survives(initial: Disk, log: seq<Op>, lost: set<nat>)
    requires Flushed(log) == |log|
    ensures Crash(initial, log, lost) == Run(initial, log)
  {
    KeptAll(log, 0, |log|, lost);
  }

  /** The start of a history. */
  lemma DurableFirst(initial: Disk, log: seq<Op>)
    requires Flushed(log) == |log|
    ensures Durable(initial, log, [Committed(|log|, Run(initial, log))], Run(initial, log))
  {
    hide Crash, Run, Flushed, OneOf;
    forall lost: set<nat> ensures OneOf(Crash(initial, log[..|log|], lost), Run(initial, log), Run(initial, log)) {
      assert log[..|log|] == log;
      Survives(initial, log, lost);
      SameIsOne(Run(initial, log), Run(initial, log));
    }
  }

  /** Two disks that both hold the new volume are the same. */
  lemma NewIsOne(a: Disk, b: Disk, disk: Disk, cache: seq<Entry>, super: seq<Byte>, table: seq<Byte>, n: nat)
    requires |super| == BLOCK && n * SECTOR <= |table| && forall i :: 0 <= i < |cache| ==> |cache[i].data| == BLOCK
    requires IsNew(a, disk, cache, super, table, n) && IsNew(b, disk, cache, super, table, n)
    ensures a == b
  {
    hide NewSector;
  }

  /** After a commit, the superblock and the descriptors in memory are those on disk. */
  lemma NewMirrors(result: Disk, disk: Disk, cache: seq<Entry>, super: seq<Byte>, savedSuper: seq<Byte>,
                   table: seq<Byte>, savedTable: seq<Byte>, n: nat)
    requires Mirrors(disk, cache, savedSuper, savedTable, n) && |super| == BLOCK && |table| == |savedTable|
    requires IsNew(result, disk, cache, super, table, n)
    ensures Mirrors(result, [], Marked(super, CLEAN), table, n)
  {
    hide Marked, CachedAt;
    MarkedTail(super, CLEAN);
    var marked := Marked(super, CLEAN);
    assert marked == Half(marked, 0) + Half(marked, 1);
    forall s | 0 <= s < |result| ensures |result[s]| == SECTOR {
      assert |NewSector(disk, cache, super, table, n, s)| == SECTOR;
    }
    forall s | 0 <= s < n ensures TableSector(table, s) == result[DESCRIPTORS_LBA + s] {
    }
  }
}
