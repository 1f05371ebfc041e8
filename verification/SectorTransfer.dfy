/** storage_pci.c: 512-byte sectors on a device whose own sectors hold several of them.

    All copies are of whole 512-byte sectors, so buffers are counted in sectors here. */
module SectorTransfer {
  import opened Arithmetic
  import opened Bytes

  type Sector = seq<Byte>

  ghost predicate Sized(native: seq<seq<Sector>>, ratio: nat) {
    ratio > 0 && forall n :: 0 <= n < |native| ==> |native[n]| == ratio
  }

  /** Which native sector holds sector `k`, and at which place. */
  function Native(k: nat, ratio: nat): nat
    requires ratio > 0
  {
    k / ratio
  }

  function Place(k: nat, ratio: nat): (r: nat)
    requires ratio > 0
    ensures r < ratio
  {
    k % ratio
  }

  /** Sector `k` of the device seen as a flat array of 512-byte sectors. */
  function Flat(native: seq<seq<Sector>>, ratio: nat, k: nat): Sector
    requires Sized(native, ratio) && Native(k, ratio) < |native|
  {
    native[Native(k, ratio)][Place(k, ratio)]
  }

  /** Every sector of a device of n native sectors is on it. */
  lemma OnDevice(n: nat, ratio: nat, k: nat)
    requires ratio > 0 && k < n * ratio
    ensures Native(k, ratio) < n
  {
    var q := Native(k, ratio);
    assert k == ratio * q + Place(k, ratio);
    if q >= n {
      ProductNonNegative(q - n, ratio);
    }
  }

  /** Sectors that follow each other inside one native sector. */
  lemma SameNative(ratio: nat, k: nat, i: nat)
    requires ratio > 0 && Place(k, ratio) + i < ratio
    ensures Native(k + i, ratio) == Native(k, ratio) && Place(k + i, ratio) == Place(k, ratio) + i
  {
    DivModUnique(k + i, ratio, Native(k, ratio), Place(k, ratio) + i);
  }

  /** Being in a stretch of one native sector, counted flat and counted by native sector. */
  lemma InStretch(ratio: nat, at: nat, count: nat, k: nat)
    requires ratio > 0 && Place(at, ratio) + count <= ratio
    ensures at <= k < at + count <==> Native(k, ratio) == Native(at, ratio) && Place(at, ratio) <= Place(k, ratio) < Place(at, ratio) + count
    ensures at <= k < at + count ==> Place(k, ratio) - Place(at, ratio) == k - at
  {
    if at <= k < at + count {
      SameNative(ratio, at, k - at);
    } else if Native(k, ratio) == Native(at, ratio) {
      assert k == ratio * (Native(k, ratio)) + Place(k, ratio) && at == ratio * (Native(at, ratio)) + Place(at, ratio);
    }
  }

  lemma SplicedNative(now: seq<seq<Sector>>, ratio: nat, n: nat, offset: nat, chunk: seq<Sector>)
    requires Sized(now, ratio) && n < |now| && offset + |chunk| <= ratio
    ensures Sized(now[n := Splice(now[n], offset, chunk)], ratio)
    ensures forall m, p :: 0 <= m < |now| && 0 <= p < ratio ==>
      now[n := Splice(now[n], offset, chunk)][m][p] == if m == n && offset <= p < offset + |chunk| then chunk[p - offset] else now[m][p]
  {
  }

  /** Replacing `chunk` inside one native sector changes those sectors and no others. */
  lemma WroteAt(now: seq<seq<Sector>>, ratio: nat, at: nat, chunk: seq<Sector>, next: seq<seq<Sector>>, k: nat)
    requires Sized(now, ratio) && Native(at, ratio) < |now| && Native(k, ratio) < |now| && Place(at, ratio) + |chunk| <= ratio
    requires next == now[Native(at, ratio) := Splice(now[Native(at, ratio)], Place(at, ratio), chunk)]
    ensures Sized(next, ratio)
    ensures Flat(next, ratio, k) == if at <= k < at + |chunk| then chunk[k - at] else Flat(now, ratio, k)
  {
    hide Splice, Native, Place;
    InStretch(ratio, at, |chunk|, k);
    SplicedNative(now, ratio, Native(at, ratio), Place(at, ratio), chunk);
  }

  /** A device whose commands may fail. */
  class Device {
    const ratio: nat
    var native: seq<seq<Sector>>
    var present: bool
    var readonly: bool
    /** Whether the commands to come will fail, in order. */
    var faults: seq<bool>

    constructor (ratio: nat, native: seq<seq<Sector>>, readonly: bool, faults: seq<bool>)
      requires Sized(native, ratio)
      ensures Valid() && this.ratio == ratio && this.native == native && this.readonly == readonly && this.faults == faults && present
    {
      this.ratio, this.native, present, this.readonly, this.faults := ratio, native, true, readonly, faults;
    }

    ghost predicate Valid()
      reads this
    {
      Sized(native, ratio)
    }

    /** Capacity in 512-byte sectors. */
    function Sectors(): nat
      reads this
    {
      |native| * ratio
    }

    /** native_io, one native sector into the bounce buffer. */
    method ReadNative(n: nat, bounce: array<Sector>) returns (failed: bool)
      requires Valid() && n < |native| && bounce.Length == ratio
      modifies this`faults, bounce
      ensures !failed ==> bounce[..] == native[n]
      ensures old(faults) == [] ==> !failed && faults == []
    {
      failed := faults != [] && faults[0];
      faults := if faults == [] then [] else faults[1..];
      if !failed {
        forall i | 0 <= i < ratio {
          bounce[i] := native[n][i];
        }
      }
    }

    /** native_io, the bounce buffer to one native sector. */
    method WriteNative(n: nat, bounce: array<Sector>) returns (failed: bool)
      requires Valid() && n < |native| && bounce.Length == ratio
      modifies this`faults, this`native
      ensures Valid() && native == if failed then old(native) else old(native)[n := bounce[..]]
      ensures old(faults) == [] ==> !failed && faults == []
    {
      failed := faults != [] && faults[0];
      faults := if faults == [] then [] else faults[1..];
      if !failed {
        native := native[n := bounce[..]];
      }
    }

    /** transfer(): reads and writes behave as on a flat array of 512-byte sectors. One that
        fails part way has written, or read, a prefix of its range, and leaves all else alone. */
    method Transfer(lba: nat, data: array<Sector>, sectors: nat, write: bool, bounce: array<Sector>) returns (r: int)
      requires Valid() && bounce.Length == ratio && sectors <= data.Length && data != bounce
      modifies this`faults, this`native, bounce, data
      ensures r == 0 || r == -1
      ensures Valid() && |native| == old(|native|)
      ensures r == 0 ==> present && 0 < sectors <= 8 && lba + sectors <= Sectors() && !(write && readonly)
      ensures !(present && 0 < sectors <= 8 && lba + sectors <= old(Sectors()) && !(write && readonly)) ==> r == -1 && faults == old(faults)
      ensures r == -1 && old(faults) == [] ==> !(present && 0 < sectors <= 8 && lba + sectors <= old(Sectors()) && !(write && readonly))
      ensures write ==> data[..] == old(data[..])
      ensures !write ==> native == old(native)
      ensures !write ==> exists done: nat :: done <= sectors && ReadAll(native, ratio, lba, data[..], done)
                           && data[done..] == old(data[..])[done..] && (r == 0 ==> done == sectors)
      ensures write ==> exists done: nat :: done <= sectors && Wrote(old(native), native, ratio, lba, old(data[..]), done) && (r == 0 ==> done == sectors)
    {
      hide Flat, Wrote, ReadAll, Native, Place, Splice;
      NothingMoved(native, ratio, lba, data[..]);
      if !present || sectors == 0 || sectors > 8 {
        return -1;
      }
      if lba + sectors > Sectors() || (write && readonly) {
        return -1;
      }
      ghost var before, input := native, data[..];
      var done := 0;
      while done < sectors
        invariant 0 <= done <= sectors && Valid() && |native| == |before| && lba + sectors <= |before| * ratio
        invariant old(faults) == [] ==> faults == []
        invariant write ==> data[..] == input && Wrote(before, native, ratio, lba, input, done)
        invariant !write ==> native == before && ReadAll(before, ratio, lba, data[..], done) && data[done..] == input[done..]
      {
        var at := lba + done;
        OnDevice(|before|, ratio, at);
        var n, offset, count := Native(at, ratio), Place(at, ratio), ratio - Place(at, ratio);
        if count > sectors - done {
          count := sectors - done;
        }
        if !write || offset != 0 || count != ratio {
          var failed := ReadNative(n, bounce);
          if failed {
            return -1;
          }
        }
        if write {
          ghost var b, now := bounce[..], native;
          CopySectors(bounce, offset, data, done, count);
          PartOrAll(b, now[n], offset, input[done..done + count], ratio);
          var failed := WriteNative(n, bounce);
          if failed {
            return -1;
          }
          WroteMore(before, now, ratio, lba, input, done, count, native);
        } else {
          ghost var now := data[..];
          CopySectors(data, done, bounce, offset, count);
          ReadMore(before, ratio, lba, now, done, count, data[..]);
          TailKept(now, data[..], input, done, count, bounce[offset..offset + count]);
        }
        done := done + count;
      }
      return 0;
    }
  }

  /** memcpy of whole sectors between two buffers. */
  method CopySectors(out: array<Sector>, at: nat, from: array<Sector>, start: nat, count: nat)
    requires at + count <= out.Length && start + count <= from.Length && out != from
    modifies out
    ensures out[..] == Splice(old(out[..]), at, from[start..start + count])
  {
    for i := 0 to count
      invariant out[..] == Splice(old(out[..]), at, from[start..start + i])
    {
      assert from[start..start + i] + [from[start + i]] == from[start..start + i + 1];
      out[at + i] := from[start + i];
    }
  }

  /** The device after the first `done` sectors of `bytes` were written at `lba`. */
  ghost predicate Wrote(before: seq<seq<Sector>>, after: seq<seq<Sector>>, ratio: nat, lba: nat, bytes: seq<Sector>, done: nat)
    requires Sized(before, ratio) && Sized(after, ratio)
  {
    && |after| == |before| && done <= |bytes|
    && forall k: nat :: Native(k, ratio) < |before| ==>
         Flat(after, ratio, k) == if lba <= k < lba + done then bytes[k - lba] else Flat(before, ratio, k)
  }

  /** The first `done` sectors of the buffer are those of the device from `lba` on. */
  ghost predicate ReadAll(native: seq<seq<Sector>>, ratio: nat, lba: nat, out: seq<Sector>, done: nat)
    requires Sized(native, ratio)
  {
    done <= |out| && forall k: nat :: lba <= k < lba + done ==> Native(k, ratio) < |native| && out[k - lba] == Flat(native, ratio, k)
  }

  lemma NothingMoved(native: seq<seq<Sector>>, ratio: nat, lba: nat, data: seq<Sector>)
    requires Sized(native, ratio)
    ensures Wrote(native, native, ratio, lba, data, 0) && ReadAll(native, ratio, lba, data, 0)
  {
  }

  /** A whole native sector needs no reading first: nothing of the old one is kept. */
  lemma PartOrAll(b: seq<Sector>, now: seq<Sector>, offset: nat, chunk: seq<Sector>, ratio: nat)
    requires |b| == |now| == ratio && offset + |chunk| <= ratio && (b == now || (offset == 0 && |chunk| == ratio))
    ensures Splice(b, offset, chunk) == Splice(now, offset, chunk)
  {
  }

  lemma TailKept(now: seq<Sector>, next: seq<Sector>, input: seq<Sector>, done: nat, count: nat, chunk: seq<Sector>)
    requires done + count <= |now| == |input| && |chunk| == count && next == Splice(now, done, chunk) && now[done..] == input[done..]
    ensures next[done + count..] == input[done + count..]
  {
    assert forall i :: done <= i < |now| ==> now[i] == now[done..][i - done];
  }

  lemma WroteMore(before: seq<seq<Sector>>, now: seq<seq<Sector>>, ratio: nat, lba: nat, bytes: seq<Sector>, done: nat, count: nat, next: seq<seq<Sector>>)
    requires Sized(before, ratio) && Sized(now, ratio) && Wrote(before, now, ratio, lba, bytes, done) && done + count <= |bytes|
    requires Place(lba + done, ratio) + count <= ratio && Native(lba + done, ratio) < |before|
    requires var n := Native(lba + done, ratio);
      next == now[n := Splice(now[n], Place(lba + done, ratio), bytes[done..done + count])]
    ensures Sized(next, ratio) && Wrote(before, next, ratio, lba, bytes, done + count)
  {
    hide Flat, Splice, Native, Place;
    WroteAt(now, ratio, lba + done, bytes[done..done + count], next, lba + done);
    forall k: nat | Native(k, ratio) < |before|
      ensures Flat(next, ratio, k) == if lba <= k < lba + (done + count) then bytes[k - lba] else Flat(before, ratio, k)
    {
      WroteAt(now, ratio, lba + done, bytes[done..done + count], next, k);
    }
  }

  lemma ReadMore(native: seq<seq<Sector>>, ratio: nat, lba: nat, out: seq<Sector>, done: nat, count: nat, now: seq<Sector>)
    requires Sized(native, ratio) && ReadAll(native, ratio, lba, out, done) && done + count <= |out|
    requires Place(lba + done, ratio) + count <= ratio && Native(lba + done, ratio) < |native|
    requires var offset := Place(lba + done, ratio);
      now == Splice(out, done, native[Native(lba + done, ratio)][offset..offset + count])
    ensures ReadAll(native, ratio, lba, now, done + count)
  {
    hide Native, Place;
    forall k: nat | lba <= k < lba + (done + count) ensures Native(k, ratio) < |native| && now[k - lba] == Flat(native, ratio, k) {
      if k >= lba + done {
        SameNative(ratio, lba + done, k - (lba + done));
      }
    }
  }

  /** What a transfer did to place `i` of native sector `n`, which is sector n * ratio + i. */
  lemma TransferMeans(before: seq<seq<Sector>>, after: seq<seq<Sector>>, ratio: nat, lba: nat, buffer: seq<Sector>, done: nat, n: nat, i: nat)
    requires Sized(before, ratio) && Sized(after, ratio) && n < |before| && i < ratio
    ensures Wrote(before, after, ratio, lba, buffer, done) ==>
      |after| == |before| && done <= |buffer| &&
      after[n][i] == if lba <= n * ratio + i < lba + done then buffer[n * ratio + i - lba] else before[n][i]
    ensures ReadAll(before, ratio, lba, buffer, done) ==>
      done <= |buffer| && (lba <= n * ratio + i < lba + done ==> buffer[n * ratio + i - lba] == before[n][i])
  {
    ProductNonNegative(n, ratio);
    DivModUnique(n * ratio + i, ratio, n, i);
    var k: nat := n * ratio + i;
    assert Native(k, ratio) == n && Place(k, ratio) == i;
  }
}
