/** fs.c: the allocation bitmaps and the three counters that must agree with them. */
module Ext2Pools {
  import opened Arithmetic

  /** Clear bits of a bitmap. */
  function Clear(bits: seq<bool>): (n: nat)
    ensures n <= |bits|
  {
    if bits == [] then 0 else Clear(bits[..|bits| - 1]) + if bits[|bits| - 1] then 0 else 1
  }

  function Sum(counts: seq<nat>): nat {
    if counts == [] then 0 else Sum(counts[..|counts| - 1]) + counts[|counts| - 1]
  }

  /** One resource, blocks or inodes: the superblock's free count, the free count of each
      group's descriptor, each group's bitmap, and where to look first. */
  datatype Pool = Pool(free: nat, groupFree: seq<nat>, bits: seq<seq<bool>>, hint: nat) {
    /** The three counts agree, in every group and over the volume. */
    ghost predicate Ok() {
      && |groupFree| == |bits| > 0 && hint < |bits|
      && free == Sum(groupFree)
      && forall g :: 0 <= g < |bits| ==> groupFree[g] == Clear(bits[g])
    }

    predicate Has(g: nat, i: nat) {
      g < |bits| && i < |bits[g]|
    }

    /** Mark a clear bit used, as allocate does. */
    function Taken(g: nat, i: nat): Pool
      requires Has(g, i) && g < |groupFree| && free > 0 && groupFree[g] > 0
    {
      Pool(free - 1, groupFree[g := groupFree[g] - 1], bits[g := bits[g][i := true]], g)
    }

    /** Mark a used bit clear, as release does. */
    function Given(g: nat, i: nat): Pool
      requires Has(g, i) && g < |groupFree|
    {
      Pool(free + 1, groupFree[g := groupFree[g] + 1], bits[g := bits[g][i := false]], hint)
    }
  }

  lemma {:induction false} ClearUpdate(bits: seq<bool>, i: nat, value: bool)
    requires i < |bits|
    ensures Clear(bits[i := value]) == Clear(bits) + (if bits[i] then 1 else 0) - (if value then 1 else 0)
  {
    var n := |bits| - 1;
    if i < n {
      ClearUpdate(bits[..n], i, value);
      assert bits[i := value][..n] == bits[..n][i := value];
    } else {
      assert bits[i := value][..n] == bits[..n];
    }
  }

  lemma {:induction false} SumUpdate(counts: seq<nat>, i: nat, value: nat)
    requires i < |counts|
    ensures Sum(counts[i := value]) == Sum(counts) - counts[i] + value
    ensures counts[i] <= Sum(counts)
  {
    var n := |counts| - 1;
    if i < n {
      SumUpdate(counts[..n], i, value);
      assert counts[i := value][..n] == counts[..n][i := value];
    } else {
      assert counts[i := value][..n] == counts[..n];
    }
  }

  lemma {:induction false} ClearZero(bits: seq<bool>)
    ensures Clear(bits) == 0 <==> forall i :: 0 <= i < |bits| ==> bits[i]
  {
    if bits != [] {
      ClearZero(bits[..|bits| - 1]);
      if Clear(bits) == 0 {
        forall i | 0 <= i < |bits| ensures bits[i] {
          if i < |bits| - 1 {
            assert bits[..|bits| - 1][i];
          }
        }
      } else if bits[|bits| - 1] {
        var j :| 0 <= j < |bits| - 1 && !bits[..|bits| - 1][j];
        assert !bits[j];
      }
    }
  }

  lemma {:induction false} SumZero(counts: seq<nat>)
    ensures Sum(counts) == 0 <==> forall i :: 0 <= i < |counts| ==> counts[i] == 0
  {
    if counts != [] {
      var n := |counts| - 1;
      SumZero(counts[..n]);
      if Sum(counts) == 0 {
        forall i | 0 <= i < |counts| ensures counts[i] == 0 {
          if i < n {
            assert counts[..n][i] == 0;
          }
        }
      } else if counts[n] == 0 {
        var j :| 0 <= j < n && counts[..n][j] != 0;
        assert counts[j] != 0;
      }
    }
  }

  /** Taking a clear bit keeps the counts in step. */
  lemma TakenOk(p: Pool, g: nat, i: nat)
    requires p.Ok() && p.Has(g, i) && !p.bits[g][i]
    ensures p.free > 0 && p.groupFree[g] > 0 && p.Taken(g, i).Ok()
  {
    ClearZero(p.bits[g]);
    SumUpdate(p.groupFree, g, p.groupFree[g]);
    SumUpdate(p.groupFree, g, p.groupFree[g] - 1);
    ClearUpdate(p.bits[g], i, true);
  }

  /** Giving back a used bit keeps the counts in step... */
  lemma GivenOk(p: Pool, g: nat, i: nat)
    requires p.Ok() && p.Has(g, i) && p.bits[g][i]
    ensures p.Given(g, i).Ok()
  {
    SumUpdate(p.groupFree, g, p.groupFree[g] + 1);
    ClearUpdate(p.bits[g], i, false);
  }

  /** ... and only then: releasing a free item breaks them. */
  lemma DoubleRelease(p: Pool, g: nat, i: nat)
    requires p.Ok() && p.Has(g, i)
    ensures p.Given(g, i).Ok() <==> p.bits[g][i]
  {
    SumUpdate(p.groupFree, g, p.groupFree[g] + 1);
    ClearUpdate(p.bits[g], i, false);
    assert p.Given(g, i).bits[g] == p.bits[g][i := false];
    assert p.Given(g, i).groupFree[g] == p.groupFree[g] + 1;
  }

  /** The superblock's count is zero exactly when every bit of every group is set. */
  lemma NothingFree(p: Pool)
    requires p.Ok()
    ensures p.free == 0 <==> forall g: nat, i: nat :: p.Has(g, i) ==> p.bits[g][i]
  {
    SumZero(p.groupFree);
    forall g | 0 <= g < |p.bits| ensures p.groupFree[g] == 0 <==> forall i :: 0 <= i < |p.bits[g]| ==> p.bits[g][i] {
      ClearZero(p.bits[g]);
    }
    if p.free == 0 {
      forall g: nat, i: nat | p.Has(g, i) ensures p.bits[g][i] {
        assert p.groupFree[g] == 0;
      }
    } else {
      var g :| 0 <= g < |p.groupFree| && p.groupFree[g] != 0;
      var i :| 0 <= i < |p.bits[g]| && !p.bits[g][i];
      assert p.Has(g, i);
    }
  }

  /** Where allocate's search ends: the first group, going round from the hint, with a
      nonzero count, and in it the first clear bit at or above that group's start. */
  datatype Search = Found(g: nat, i: nat) | Corrupt | Empty

  function FirstClear(bits: seq<bool>, from: nat): (r: nat)
    requires from <= |bits|
    ensures from <= r <= |bits|
    ensures forall i :: from <= i < r ==> bits[i]
    ensures r < |bits| ==> !bits[r]
    decreases |bits| - from
  {
    if from < |bits| && bits[from] then FirstClear(bits, from + 1) else from
  }

  /** `first` is the lowest item of group 0 that may be handed out. */
  function SearchFrom(p: Pool, first: nat, step: nat): (r: Search)
    requires |p.groupFree| == |p.bits| > 0 && step <= |p.bits| && first <= |p.bits[0]|
    ensures r.Found? ==> p.Has(r.g, r.i) && !p.bits[r.g][r.i] && p.groupFree[r.g] != 0 && (r.g == 0 ==> r.i >= first)
    decreases |p.bits| - step
  {
    if step == |p.bits| then Empty
    else
      var g := (p.hint + step) % |p.bits|;
      if p.groupFree[g] == 0 then SearchFrom(p, first, step + 1)
      else
        var i := FirstClear(p.bits[g], if g == 0 then first else 0);
        if i < |p.bits[g]| then Found(g, i) else Corrupt
  }

  lemma {:induction false} SearchEmpty(p: Pool, first: nat, step: nat, k: nat)
    requires |p.groupFree| == |p.bits| > 0 && step <= k < |p.bits| && first <= |p.bits[0]|
    requires SearchFrom(p, first, step).Empty?
    ensures p.groupFree[(p.hint + k) % |p.bits|] == 0
    decreases k - step
  {
    if k > step {
      SearchEmpty(p, first, step + 1, k);
    }
  }

  lemma {:induction false} SearchSound(p: Pool, first: nat, step: nat)
    requires p.Ok() && step <= |p.bits| && first <= |p.bits[0]|
    requires forall i :: 0 <= i < first ==> p.bits[0][i]
    ensures !SearchFrom(p, first, step).Corrupt?
    decreases |p.bits| - step
  {
    if step < |p.bits| {
      var g := (p.hint + step) % |p.bits|;
      ClearZero(p.bits[g]);
      SearchSound(p, first, step + 1);
    }
  }

  /** Allocation fails only when nothing is free. */
  lemma SearchComplete(p: Pool, first: nat)
    requires p.Ok() && first <= |p.bits[0]|
    requires forall i :: 0 <= i < first ==> p.bits[0][i]
    ensures SearchFrom(p, first, 0).Found? <==> p.free > 0
    ensures SearchFrom(p, first, 0).Empty? <==> p.free == 0
  {
    SearchSound(p, first, 0);
    SumZero(p.groupFree);
    if SearchFrom(p, first, 0).Empty? {
      forall g | 0 <= g < |p.bits| ensures p.groupFree[g] == 0 {
        var n := |p.bits|;
        var k := if g >= p.hint then g - p.hint else g + n - p.hint;
        DivModUnique(p.hint + k, n, if g >= p.hint then 0 else 1, g);
        SearchEmpty(p, first, 0, k);
      }
    } else {
      var r := SearchFrom(p, first, 0);
      assert p.groupFree[r.g] != 0;
    }
  }
}
