/** storage_pci.c: finding a low memory window for a device register block.

    Addresses are unsigned 64-bit numbers; sums are reduced modulo 2^64 as in C. */
module MmioAllocator {
  import opened Arithmetic

  const U64: int := 0x1_0000_0000_0000_0000
  const LOW := 0x9000_0000
  const HIGH := 0xf000_0000
  const LARGEST := 16 * 1024 * 1024
  const RESERVED_MAX := 256

  datatype Range = Range(first: int, end: int)

  /** The test of storage_pci_mmio_bar on a size, as it makes it... */
  predicate Refused(size: nat) {
    size == 0 || size > LARGEST || BitAnd(size, size - 1) != 0
  }

  /** ... and the sizes it goes on with. */
  predicate BarSized(size: nat) {
    0 < size <= LARGEST && PowerOfTwo(size)
  }

  lemma SizeTest(size: nat)
    ensures Refused(size) <==> !BarSized(size)
    ensures BarSized(size) <==> size <= 0x100_0000 && exists e: nat :: size == Power(2, e)
  {
    hide BitAnd, PowerOfTwo;
    PowersOfTwo(size);
    if e: nat :| size == Power(2, e) {
      PowerPositive(2, e);
    }
    if size > 0 {
      OneBitMask(size);
    }
  }

  /** What reserve_mmio lets into the list. */
  predicate Ranges(reserved: seq<Range>) {
    forall i :: 0 <= i < |reserved| ==> 0 <= reserved[i].first < reserved[i].end < U64
  }

  /** (x + size - 1) & ~(size - 1): clearing the low bits of the wrapped sum. */
  function AlignUp(x: int, size: nat): int
    requires size > 0
  {
    (x + size - 1) % U64 / size * size
  }

  /** For a power of two those are the bits of size - 1. */
  lemma AlignUpMasks(x: int, size: nat)
    requires BarSized(size) && 0 <= x
    ensures var sum: int := (x + size - 1) % U64; AlignUp(x, size) == sum - BitAnd(sum, size - 1)
  {
    hide BitAnd, PowerOfTwo;
    var sum: int := (x + size - 1) % U64;
    MaskIsRemainder(sum, size);
    assert sum == size * (sum / size) + sum % size;
  }

  predicate Collides(at: int, size: nat, r: Range) {
    at < r.end && at + size > r.first
  }

  /** A window that may be handed out. */
  ghost predicate Free(reserved: seq<Range>, size: nat, at: int)
    requires size > 0
  {
    at % size == 0 && LOW <= at && at + size <= HIGH && forall i :: 0 <= i < |reserved| ==> !Collides(at, size, reserved[i])
  }

  /** The windows of the search: multiples of the size between 0x90000000 and 0xf0000000 that touch no
      reserved range. */
  lemma FreeMeans(reserved: seq<Range>, size: nat, at: int)
    requires size > 0
    ensures Free(reserved, size, at) <==>
      && at % size == 0 && 0x9000_0000 <= at && at + size <= 0xf000_0000
      && forall i :: 0 <= i < |reserved| ==> reserved[i].end <= at || at + size <= reserved[i].first
  {
    if forall i :: 0 <= i < |reserved| ==> reserved[i].end <= at || at + size <= reserved[i].first {
      forall i | 0 <= i < |reserved| ensures !Collides(at, size, reserved[i]) {
      }
    }
    if Free(reserved, size, at) {
      forall i | 0 <= i < |reserved| ensures reserved[i].end <= at || at + size <= reserved[i].first {
        assert !Collides(at, size, reserved[i]);
      }
    }
  }

  predicate Disjoint(a: Range, b: Range) {
    a.end <= b.first || b.end <= a.first
  }

  // ------------------------------------------------------------ alignment

  function Pow2(k: nat): (n: int)
    ensures n > 0
  {
    if k == 0 then 1 else 2 * Pow2(k - 1)
  }

  lemma {:induction false} Pow2Add(a: nat, b: nat)
    ensures Pow2(a + b) == Pow2(a) * Pow2(b)
  {
    if a > 0 {
      Pow2Add(a - 1, b);
    }
  }

  /** A power of two divides any larger one. */
  lemma {:induction false} PowersDivide(n: nat, k: nat)
    requires PowerOfTwo(n) && n <= Pow2(k)
    ensures Pow2(k) % n == 0
  {
    if n > 1 {
      PowersDivide(n / 2, k - 1);
      var q := Pow2(k - 1) / (n / 2);
      assert Pow2(k - 1) == (n / 2) * q;
      assert Pow2(k) == 2 * ((n / 2) * q) == n * q;
      DivModUnique(Pow2(k), n, q, 0);
    }
  }

  /** The bounds of the search, and the whole address space, are multiples of any size. */
  lemma BoundsAligned(size: nat)
    requires BarSized(size)
    ensures LOW % size == 0 && HIGH % size == 0 && U64 % size == 0
  {
    assert Pow2(3) == 8;
    Pow2Add(3, 3);
    Pow2Add(6, 6);
    Pow2Add(12, 12);
    PowersDivide(size, 24);
    hide PowerOfTwo, Pow2;
    var q := LARGEST / size;
    MultipleOf(size, q, 144);
    MultipleOf(size, q, 240);
    MultipleOf(size, q, 0x100_0000_0000);
  }

  lemma MultipleOf(size: nat, q: nat, a: nat)
    requires size > 0 && LARGEST == size * q
    ensures LARGEST * a % size == 0
  {
    assert LARGEST * a == size * (q * a);
    DivModUnique(LARGEST * a, size, q * a, 0);
  }

  /** Multiples are a whole size apart. */
  lemma MultipleGap(size: nat, x: int, y: int)
    requires size > 0 && x % size == 0 && y % size == 0 && x < y
    ensures x + size <= y && (x + size) % size == 0 && (y - size) % size == 0
  {
    var p, q := x / size, y / size;
    assert x == size * p && y == size * q;
    if q <= p {
      ProductNonNegative(size, p - q);
    } else {
      ProductNonNegative(size, q - p - 1);
    }
    DivModUnique(x + size, size, p + 1, 0);
    DivModUnique(y - size, size, q - 1, 0);
  }

  /** Rounding up gives the least multiple at or above. */
  lemma AlignUpLeast(x: int, size: nat)
    requires size > 0 && 0 <= x && x + size <= U64
    ensures x <= AlignUp(x, size) < x + size && AlignUp(x, size) % size == 0
    ensures forall w :: w >= x && w % size == 0 ==> w >= AlignUp(x, size)
  {
    var q := (x + size - 1) / size;
    assert (x + size - 1) % U64 == x + size - 1;
    assert AlignUp(x, size) == size * q;
    DivModUnique(size * q, size, q, 0);
    forall w | w >= x && w % size == 0 ensures w >= AlignUp(x, size) {
      var p := w / size;
      assert w == size * p;
      if p < q {
        ProductNonNegative(size, q - 1 - p);
      }
    }
  }

  /** Near the top of the address space it gives the last multiple, and beyond that 0. */
  lemma AlignUpTop(x: int, size: nat)
    requires BarSized(size) && U64 - 2 * size < x < U64
    ensures AlignUp(x, size) == if x <= U64 - size then U64 - size else 0
  {
    hide PowerOfTwo;
    BoundsAligned(size);
    if x <= U64 - size {
      AlignUpLeast(x, size);
      MultipleGap(size, 0, U64);
      assert AlignUp(x, size) <= U64 - size;
      if AlignUp(x, size) < U64 - size {
        MultipleGap(size, AlignUp(x, size), U64 - size);
      }
    } else {
      assert (x + size - 1) % U64 == x + size - 1 - U64;
      DivModUnique(x + size - 1 - U64, size, 0, x + size - 1 - U64);
    }
  }

  // ------------------------------------------------------------ the search as a machine

  /** Where the search stands: about to try a candidate, or done. */
  datatype State = At(candidate: int) | Found(at: int) | Full

  predicate Hits(c: int, size: nat, r: Range) {
    c < r.end && (c + size) % U64 > r.first
  }

  /** The lowest position, from `i` on, of a range in the way of `c`. */
  function FirstHit(reserved: seq<Range>, size: nat, c: int, i: nat): (r: nat)
    requires i <= |reserved|
    ensures i <= r <= |reserved|
    ensures forall j :: i <= j < r ==> !Hits(c, size, reserved[j])
    ensures r < |reserved| ==> Hits(c, size, reserved[r])
    decreases |reserved| - i
  {
    if i < |reserved| && !Hits(c, size, reserved[i]) then FirstHit(reserved, size, c, i + 1) else i
  }

  /** One turn of the loop. */
  function Turn(reserved: seq<Range>, size: nat, s: State): State
    requires size > 0
  {
    if !s.At? then s
    else if (s.candidate + size) % U64 > HIGH then Full
    else
      var i := FirstHit(reserved, size, s.candidate, 0);
      if i < |reserved| then At(AlignUp(reserved[i].end, size)) else Found(s.candidate)
  }

  function After(reserved: seq<Range>, size: nat, s: State, k: nat): State
    requires size > 0
  {
    if k == 0 then s else Turn(reserved, size, After(reserved, size, s, k - 1))
  }

  lemma {:induction false} AfterSplit(reserved: seq<Range>, size: nat, s: State, a: nat, b: nat)
    requires size > 0
    ensures After(reserved, size, s, a + b) == After(reserved, size, After(reserved, size, s, a), b)
    decreases b
  {
    if b > 0 {
      AfterSplit(reserved, size, s, a, b - 1);
    }
  }

  /** Once done, done. */
  lemma DoneStays(reserved: seq<Range>, size: nat, s: State, a: nat, b: nat)
    requires size > 0 && !After(reserved, size, s, a).At? && a <= b
    ensures After(reserved, size, s, b) == After(reserved, size, s, a)
    decreases b
  {
    if a < b {
      DoneStays(reserved, size, s, a, b - 1);
    }
  }

  /** Coming back to where it was, the search never ends. */
  lemma {:induction false} Periodic(reserved: seq<Range>, size: nat, s: State, p: nat, k: nat)
    requires size > 0 && p > 0 && s.At? && After(reserved, size, s, p) == s
    ensures After(reserved, size, s, k).At?
    decreases k
  {
    if k >= p {
      AfterSplit(reserved, size, s, p, k - p);
      Periodic(reserved, size, s, p, k - p);
    } else if !After(reserved, size, s, k).At? {
      DoneStays(reserved, size, s, k, p);
    }
  }

  /** What the search is for: it ends, with the lowest free window, or with none when none
      is free. */
  ghost predicate Correct(reserved: seq<Range>, size: nat)
    requires size > 0
  {
    exists k :: Answer(reserved, size, After(reserved, size, At(AlignUp(LOW, size)), k))
  }

  ghost predicate Answer(reserved: seq<Range>, size: nat, s: State)
    requires size > 0
  {
    match s
    case At(_) => false
    case Found(at) => Free(reserved, size, at) && forall w :: Free(reserved, size, w) ==> at <= w
    case Full => forall w :: !Free(reserved, size, w)
  }

  // ------------------------------------------------------------ when it is correct

  /** A range so near the top of the address space that rounding its end up, or adding the
      size to the result, wraps. */
  predicate Wraps(r: Range, size: nat) {
    r.end > U64 - 2 * size
  }

  datatype Verdict = Clear(at: int) | Top | Trapped(index: nat)

  /** A walk upward over the reserved list that a caller could make, in plain arithmetic: it
      ends at a gap, above the limit, or at the first range in the way that wraps. */
  function Walk(reserved: seq<Range>, size: nat, c: int): (v: Verdict)
    requires BarSized(size) && Ranges(reserved) && c >= 0
    ensures v.Trapped? ==> v.index < |reserved| && Wraps(reserved[v.index], size)
    decreases HIGH - c
  {
    if c + size > HIGH then Top
    else
      var i := FirstHit(reserved, size, c, 0);
      if i == |reserved| then Clear(c)
      else if Wraps(reserved[i], size) then Trapped(i)
      else
        AlignUpLeast(reserved[i].end, size);
        Walk(reserved, size, AlignUp(reserved[i].end, size))
  }

  /** The exact condition: walking up from the lower limit meets no range that wraps, or the
      one it meets sends the search to address 0 and the walk up from there passes the limit. */
  predicate Passable(reserved: seq<Range>, size: nat)
    requires BarSized(size) && Ranges(reserved)
  {
    var v := Walk(reserved, size, LOW);
    v.Trapped? ==> reserved[v.index].end > U64 - size && Walk(reserved, size, 0).Top?
  }

  /** Where the search stands once such a walk is over. */
  function EndOf(reserved: seq<Range>, size: nat, v: Verdict): State
    requires size > 0 && (v.Trapped? ==> v.index < |reserved|)
  {
    match v
    case Clear(at) => Found(at)
    case Top => Full
    case Trapped(index) => At(AlignUp(reserved[index].end, size))
  }

  /** The search does what the walk does. */
  lemma {:induction false} WalkRuns(reserved: seq<Range>, size: nat, c: int) returns (k: nat)
    requires BarSized(size) && Ranges(reserved) && 0 <= c <= U64 - 2 * size
    ensures k > 0 && After(reserved, size, At(c), k) == EndOf(reserved, size, Walk(reserved, size, c))
    decreases HIGH - c
  {
    hide PowerOfTwo, AlignUp, FirstHit;
    var i := FirstHit(reserved, size, c, 0);
    assert (c + size) % U64 == c + size;
    assert After(reserved, size, At(c), 1) == Turn(reserved, size, At(c)) by {
      assert After(reserved, size, At(c), 0) == At(c);
    }
    k := 1;
    if c + size <= HIGH && i < |reserved| && !Wraps(reserved[i], size) {
      var next := AlignUp(reserved[i].end, size);
      AlignUpLeast(reserved[i].end, size);
      AlignedBelow(next, size);
      var rest := WalkRuns(reserved, size, next);
      AfterSplit(reserved, size, At(c), 1, rest);
      k := 1 + rest;
    }
  }

  lemma AlignedBelow(x: int, size: nat)
    requires BarSized(size) && x % size == 0 && 0 <= x < U64 - size
    ensures x <= U64 - 2 * size
  {
    hide PowerOfTwo;
    BoundsAligned(size);
    MultipleGap(size, x, U64);
    MultipleGap(size, x + size, U64);
  }

  /** A walk that starts no higher than any free window finds the lowest, and finds none
      only when there is none; nor is there one when it is trapped. */
  lemma {:induction false} WalkFinds(reserved: seq<Range>, size: nat, c: int)
    requires BarSized(size) && Ranges(reserved) && LOW <= c && c % size == 0
    requires forall w :: Free(reserved, size, w) ==> c <= w
    ensures Walk(reserved, size, c).Clear? ==> Answer(reserved, size, Found(Walk(reserved, size, c).at))
    ensures !Walk(reserved, size, c).Clear? ==> forall w :: !Free(reserved, size, w)
    decreases HIGH - c
  {
    var i := FirstHit(reserved, size, c, 0);
    if c + size <= HIGH {
      assert (c + size) % U64 == c + size;
      if i < |reserved| {
        var r := reserved[i];
        if Wraps(r, size) {
          forall w ensures !Free(reserved, size, w) {
            if w >= c && w + size <= HIGH {
              assert Collides(w, size, r);
            }
          }
        } else {
          var next := AlignUp(r.end, size);
          AlignUpLeast(r.end, size);
          forall w | Free(reserved, size, w) ensures next <= w {
            assert !Collides(w, size, r);
          }
          WalkFinds(reserved, size, next);
        }
      } else {
        assert Free(reserved, size, c) by {
          forall j | 0 <= j < |reserved| ensures !Collides(c, size, reserved[j]) {
            assert !Hits(c, size, reserved[j]);
          }
        }
      }
    }
  }

  /** From the last multiple below 2^64 the search takes that very address. */
  lemma TakesTop(reserved: seq<Range>, size: nat)
    requires BarSized(size) && Ranges(reserved)
    ensures Turn(reserved, size, At(U64 - size)) == Found(U64 - size) && !Free(reserved, size, U64 - size)
  {
    hide PowerOfTwo;
    assert (U64 - size + size) % U64 == 0;
  }

  /** The end of the search, when the walk from the lower limit is trapped. */
  lemma TrappedEnds(reserved: seq<Range>, size: nat)
    requires BarSized(size) && Ranges(reserved) && Walk(reserved, size, LOW).Trapped?
    ensures Correct(reserved, size) <==> Passable(reserved, size)
  {
    hide Walk, Turn, AlignUp, PowerOfTwo;
    BoundsAligned(size);
    LowAligned(size);
    WalkFinds(reserved, size, LOW);
    var v := Walk(reserved, size, LOW);
    var k := WalkRuns(reserved, size, LOW);
    AlignUpTop(reserved[v.index].end, size);
    if reserved[v.index].end <= U64 - size {
      TakesTop(reserved, size);
      OnlyAnswer(reserved, size, k + 1);
    } else {
      var z := Walk(reserved, size, 0);
      var m := WalkRuns(reserved, size, 0);
      AfterSplit(reserved, size, At(LOW), k, m);
      match z {
        case Clear(at) => OnlyAnswer(reserved, size, k + m);
        case Top => assert Answer(reserved, size, After(reserved, size, At(AlignUp(LOW, size)), k + m));
        case Trapped(index) =>
          AlignUpTop(reserved[index].end, size);
          if reserved[index].end <= U64 - size {
            TakesTop(reserved, size);
            OnlyAnswer(reserved, size, k + m + 1);
          } else {
            forall j: nat ensures After(reserved, size, At(LOW), j).At? {
              Endlessly(reserved, size, k, m, j);
            }
          }
      }
    }
  }

  lemma LowAligned(size: nat)
    requires BarSized(size)
    ensures AlignUp(LOW, size) == LOW && LOW <= U64 - 2 * size
  {
    BoundsAligned(size);
    AlignUpLeast(LOW, size);
  }

  /** A search that ended elsewhere has no right answer. */
  lemma OnlyAnswer(reserved: seq<Range>, size: nat, k: nat)
    requires BarSized(size)
    requires var s := After(reserved, size, At(LOW), k); !s.At? && !Answer(reserved, size, s)
    ensures !Correct(reserved, size)
  {
    LowAligned(size);
    forall j: nat ensures !Answer(reserved, size, After(reserved, size, At(LOW), j)) {
      if j >= k {
        DoneStays(reserved, size, At(LOW), k, j);
      } else if !After(reserved, size, At(LOW), j).At? {
        DoneStays(reserved, size, At(LOW), j, k);
      }
    }
  }

  /** Reaching address 0 a second time is going round for ever. */
  lemma Endlessly(reserved: seq<Range>, size: nat, k: nat, m: nat, j: nat)
    requires size > 0 && m > 0
    requires After(reserved, size, At(LOW), k) == At(0) && After(reserved, size, At(0), m) == At(0)
    ensures After(reserved, size, At(LOW), j).At?
  {
    hide Turn;
    if j >= k {
      AfterSplit(reserved, size, At(LOW), k, j - k);
      Periodic(reserved, size, At(0), m, j - k);
    } else if !After(reserved, size, At(LOW), j).At? {
      DoneStays(reserved, size, At(LOW), j, k);
    }
  }

  /** The search does what it is for exactly on passable lists. */
  lemma CorrectExactly(reserved: seq<Range>, size: nat)
    requires BarSized(size) && Ranges(reserved)
    ensures Correct(reserved, size) <==> Passable(reserved, size)
  {
    hide Walk, PowerOfTwo;
    LowAligned(size);
    BoundsAligned(size);
    if Walk(reserved, size, LOW).Trapped? {
      TrappedEnds(reserved, size);
    } else {
      WalkFinds(reserved, size, LOW);
      var k := WalkRuns(reserved, size, LOW);
      assert Answer(reserved, size, After(reserved, size, At(AlignUp(LOW, size)), k));
    }
  }

  lemma {:induction false} NeverTrapped(reserved: seq<Range>, size: nat, c: int)
    requires BarSized(size) && Ranges(reserved) && c >= 0
    requires forall i :: 0 <= i < |reserved| && reserved[i].first < HIGH ==> !Wraps(reserved[i], size)
    ensures !Walk(reserved, size, c).Trapped?
    decreases HIGH - c
  {
    if c + size <= HIGH {
      assert (c + size) % U64 == c + size;
      var i := FirstHit(reserved, size, c, 0);
      if i < |reserved| {
        assert reserved[i].first < HIGH;
        AlignUpLeast(reserved[i].end, size);
        NeverTrapped(reserved, size, AlignUp(reserved[i].end, size));
      }
    }
  }

  /** A simple sufficient case: no range that starts below the limit ends near 2^64. */
  lemma LowRangesSuffice(reserved: seq<Range>, size: nat)
    requires BarSized(size) && Ranges(reserved)
    requires forall i :: 0 <= i < |reserved| && reserved[i].first < HIGH ==> !Wraps(reserved[i], size)
    ensures Correct(reserved, size)
  {
    NeverTrapped(reserved, size, LOW);
    CorrectExactly(reserved, size);
  }

  /** Two lists on which it fails: one range up to the top of the address space... */
  const TO_THE_TOP := [Range(LOW, U64 - 1)]

  /** ... and two that cover everything. */
  const EVERYTHING := [Range(0, LOW), Range(LOW, U64 - 1)]

  /** A turn from a candidate that meets range `i` first. */
  lemma Meets(reserved: seq<Range>, size: nat, c: int, i: nat)
    requires size > 0 && 0 <= c && c + size <= HIGH && i < |reserved|
    requires c < reserved[i].end && c + size > reserved[i].first
    requires forall j :: 0 <= j < i ==> c >= reserved[j].end || c + size <= reserved[j].first
    ensures Turn(reserved, size, At(c)) == At(AlignUp(reserved[i].end, size))
  {
    hide AlignUp;
    assert (c + size) % U64 == c + size;
    assert Hits(c, size, reserved[i]);
  }

  lemma TopRun(size: nat)
    requires BarSized(size) && size > 1
    ensures Turn(TO_THE_TOP, size, At(LOW)) == At(0) && Turn(TO_THE_TOP, size, At(0)) == Found(0)
  {
    AlignUpTop(U64 - 1, size);
    hide PowerOfTwo, AlignUp;
    assert TO_THE_TOP[0] == Range(LOW, U64 - 1);
    Meets(TO_THE_TOP, size, LOW, 0);
    assert (0 + size) % U64 == size;
  }

  /** The search answers address 0, far below the windows it may use. */
  lemma AnswersZero(size: nat)
    requires BarSized(size) && size > 1
    ensures After(TO_THE_TOP, size, At(LOW), 2) == Found(0) && !Free(TO_THE_TOP, size, 0)
    ensures !Correct(TO_THE_TOP, size)
  {
    hide Turn, PowerOfTwo, AlignUp, Correct;
    TopRun(size);
    assert After(TO_THE_TOP, size, At(LOW), 0) == At(LOW);
    assert After(TO_THE_TOP, size, At(LOW), 1) == At(0);
    assert After(TO_THE_TOP, size, At(LOW), 2) == Found(0);
    OnlyAnswer(TO_THE_TOP, size, 2);
  }

  lemma RoundRun(size: nat)
    requires BarSized(size) && size > 1
    ensures Turn(EVERYTHING, size, At(LOW)) == At(0) && Turn(EVERYTHING, size, At(0)) == At(LOW)
  {
    hide PowerOfTwo, AlignUp, Turn;
    LowAligned(size);
    AlignUpTop(U64 - 1, size);
    assert EVERYTHING[0] == Range(0, LOW) && EVERYTHING[1] == Range(LOW, U64 - 1);
    Meets(EVERYTHING, size, LOW, 1);
    Meets(EVERYTHING, size, 0, 0);
  }

  /** The search goes from one range to the other for ever. */
  lemma GoesRound(size: nat)
    requires BarSized(size) && size > 1
    ensures forall j: nat :: After(EVERYTHING, size, At(LOW), j).At?
    ensures !Correct(EVERYTHING, size)
  {
    hide Turn, PowerOfTwo, AlignUp;
    RoundRun(size);
    LowAligned(size);
    assert After(EVERYTHING, size, At(0), 0) == At(0) && After(EVERYTHING, size, At(LOW), 0) == At(LOW);
    assert After(EVERYTHING, size, At(LOW), 1) == At(0) && After(EVERYTHING, size, At(0), 1) == At(LOW);
    assert After(EVERYTHING, size, At(0), 2) == At(0);
    forall i: nat ensures After(EVERYTHING, size, At(LOW), i).At? {
      Endlessly(EVERYTHING, size, 1, 2, i);
    }
  }

  // ------------------------------------------------------------ the search

  /** How the loop of storage_pci_mmio_bar ends, or that it does not. */
  datatype Result = Window(at: int) | NoRoom | Endless

  /** The state the result stands for is the one the machine reaches. */
  ghost predicate Reached(reserved: seq<Range>, size: nat, r: Result)
    requires size > 0
  {
    if r.Endless? then forall k: nat :: After(reserved, size, At(AlignUp(LOW, size)), k).At?
    else exists k: nat :: After(reserved, size, At(AlignUp(LOW, size)), k) == if r.Window? then Found(r.at) else Full
  }

  /** The loop of storage_pci_mmio_bar, given up when address 0 comes round again. */
  method Search(reserved: seq<Range>, size: nat) returns (r: Result)
    requires BarSized(size) && Ranges(reserved)
    ensures Reached(reserved, size, r)
    ensures Passable(reserved, size) ==>
      !r.Endless? && Answer(reserved, size, if r.Window? then Found(r.at) else Full)
    ensures r.Window? ==> 0 <= r.at && (r.at == U64 - size || r.at + size <= HIGH)
    ensures r.Window? && r.at + size <= HIGH ==> forall i :: 0 <= i < |reserved| ==> !Collides(r.at, size, reserved[i])
  {
    hide Walk, PowerOfTwo, AlignUp, Correct, Answer, Passable, Reached, Ranges, Turn, After;
    LowAligned(size);
    AtStart(reserved, size);
    var candidate := AlignUp(LOW, size);
    var wrapped := false;
    ghost var k, zero := 0, 0;
    while true
      invariant 0 <= candidate && (candidate == U64 - size || candidate <= U64 - 2 * size)
      invariant After(reserved, size, At(LOW), k) == At(candidate)
      invariant wrapped ==> zero <= k && After(reserved, size, At(LOW), zero) == At(0)
      decreases !wrapped, U64 - candidate
    {
      OneTurn(reserved, size, k, candidate);
      if (candidate + size) % U64 > HIGH {
        Ended(reserved, size, k + 1);
        return NoRoom;
      }
      var i := 0;
      while i < |reserved| && !Hits(candidate, size, reserved[i])
        invariant i <= |reserved| && FirstHit(reserved, size, candidate, 0) == FirstHit(reserved, size, candidate, i)
      {
        i := i + 1;
      }
      if i == |reserved| {
        Ended(reserved, size, k + 1);
        if candidate < U64 - size { NothingCollides(reserved, size, candidate); }
        return Window(candidate);
      }
      Rounded(reserved, size, candidate, i);
      var next := AlignUp(reserved[i].end, size);
      k := k + 1;
      if next == 0 {
        if wrapped {
          AfterSplit(reserved, size, At(LOW), zero, k - zero);
          Circles(reserved, size, zero, k);
          return Endless;
        }
        wrapped, zero := true, k;
      }
      candidate := next;
    }
  }

  lemma AtStart(reserved: seq<Range>, size: nat)
    requires size > 0
    ensures After(reserved, size, At(LOW), 0) == At(LOW)
  {
  }

  lemma OneTurn(reserved: seq<Range>, size: nat, k: nat, c: int)
    requires size > 0 && After(reserved, size, At(LOW), k) == At(c)
    ensures After(reserved, size, At(LOW), k + 1) ==
      if (c + size) % U64 > HIGH then Full
      else
        var i := FirstHit(reserved, size, c, 0);
        if i < |reserved| then At(AlignUp(reserved[i].end, size)) else Found(c)
  {
  }

  lemma NothingCollides(reserved: seq<Range>, size: nat, c: int)
    requires FirstHit(reserved, size, c, 0) == |reserved| && 0 <= c && c + size < U64
    ensures forall i :: 0 <= i < |reserved| ==> !Collides(c, size, reserved[i])
  {
    assert (c + size) % U64 == c + size;
    forall i | 0 <= i < |reserved| ensures !Collides(c, size, reserved[i]) {
      assert !Hits(c, size, reserved[i]);
    }
  }

  /** A move is upward, unless it is to address 0. */
  lemma Rounded(reserved: seq<Range>, size: nat, c: int, i: nat)
    requires BarSized(size) && Ranges(reserved) && i < |reserved| && Hits(c, size, reserved[i])
    ensures var next := AlignUp(reserved[i].end, size);
      next == 0 || (next > c && (next == U64 - size || next <= U64 - 2 * size))
  {
    var end := reserved[i].end;
    if end > U64 - 2 * size {
      AlignUpTop(end, size);
    } else {
      AlignUpLeast(end, size);
      AlignedBelow(AlignUp(end, size), size);
    }
  }

  lemma Circles(reserved: seq<Range>, size: nat, zero: nat, k: nat)
    requires BarSized(size) && Ranges(reserved) && zero < k
    requires After(reserved, size, At(LOW), zero) == At(0) == After(reserved, size, At(LOW), k)
    requires After(reserved, size, At(0), k - zero) == At(0)
    ensures Reached(reserved, size, Endless) && !Passable(reserved, size)
  {
    hide Turn, Walk;
    LowAligned(size);
    forall j: nat ensures After(reserved, size, At(LOW), j).At? {
      Endlessly(reserved, size, zero, k - zero, j);
    }
    CorrectExactly(reserved, size);
  }

  lemma Ended(reserved: seq<Range>, size: nat, k: nat)
    requires BarSized(size) && Ranges(reserved) && !After(reserved, size, At(LOW), k).At?
    ensures var s := After(reserved, size, At(LOW), k);
      && Reached(reserved, size, if s.Found? then Window(s.at) else NoRoom)
      && (Passable(reserved, size) ==> Answer(reserved, size, s))
  {
    hide Turn, Walk, Answer;
    LowAligned(size);
    CorrectExactly(reserved, size);
    if !Answer(reserved, size, After(reserved, size, At(LOW), k)) {
      OnlyAnswer(reserved, size, k);
    }
  }

  // ------------------------------------------------------------ the allocator

  class Allocator {
    var reserved: seq<Range>
    var ready: bool
    /** The windows that were reassigned, in order. */
    ghost var given: seq<Range>
    /** Every list so far on which a window was searched for was passable. */
    ghost var passable: bool

    constructor ()
      ensures Valid() && reserved == [] && given == [] && passable
    {
      reserved, ready, given, passable := [], true, [], true;
    }

    /** Every reassigned window is reserved, below the limit, and apart from the others; and
        at or above the lower limit, if every list was passable. */
    ghost predicate Valid()
      reads this
    {
      && |reserved| <= RESERVED_MAX && Ranges(reserved)
      && (forall i :: 0 <= i < |given| ==> given[i] in reserved && 0 <= given[i].first && given[i].end <= HIGH)
      && (passable ==> forall i :: 0 <= i < |given| ==> LOW <= given[i].first)
      && (forall i, j :: 0 <= i < j < |given| ==> Disjoint(given[i], given[j]))
    }

    /** reserve_mmio: ranges above 4 GiB do not matter; when there is no room, or the range
        wraps, the allocator stops serving. */
    method Reserve(first: int, bytes: int)
      requires Valid() && 0 <= first < U64 && 0 <= bytes < U64
      modifies this`reserved, this`ready
      ensures Valid()
      ensures bytes == 0 || first >= 0x1_0000_0000 ==> reserved == old(reserved) && ready == old(ready)
      ensures bytes > 0 && first < 0x1_0000_0000 ==>
                if old(|reserved|) == 256 || first + bytes >= 0x1_0000_0000_0000_0000 then reserved == old(reserved) && !ready
                else reserved == old(reserved) + [Range(first, first + bytes)] && ready == old(ready)
    {
      if bytes == 0 || first >= 0x1_0000_0000 {
        return;
      }
      if |reserved| == RESERVED_MAX || (first + bytes) % U64 < first {
        ready := false;
        return;
      }
      reserved := reserved + [Range(first, (first + bytes) % U64)];
    }

    /** Does storage_pci_mmio_bar get as far as searching? */
    predicate Serves(rootBus: bool, size: nat)
      reads this
    {
      ready && rootBus && |reserved| < 256 && BarSized(size)
    }

    /** storage_pci_mmio_bar for a BAR that firmware put above 4 GiB. `rootBus` is whether the
        device is on bus 0, `size` what bar_size reports, `kept` whether the device reads back
        a 32-bit address written to it. When `hangs`, the original never returns. */
    method Reassign(rootBus: bool, size: nat, kept: bool) returns (r: int, hangs: bool)
      requires Valid() && size < U64
      modifies this
      ensures Valid() && ready == old(ready)
      ensures passable == (old(passable) && (old(Serves(rootBus, size)) ==> Passable(old(reserved), size)))
      ensures hangs <==> old(Serves(rootBus, size)) && Reached(old(reserved), size, Endless)
      ensures hangs || !old(Serves(rootBus, size)) || !kept ==> r == 0 && reserved == old(reserved) && given == old(given)
      ensures given == old(given) ==> r == 0 && reserved == old(reserved)
      ensures given != old(given) ==> given == old(given) + [Range(r, r + size)] && reserved == old(reserved) + [Range(r, r + size)]
      ensures given != old(given) ==> size > 0 && Reached(old(reserved), size, Window(r))
      ensures old(Serves(rootBus, size)) && Passable(old(reserved), size) && kept ==>
        if r == 0 then forall w :: !Free(old(reserved), size, w)
        else Free(old(reserved), size, r) && forall w :: Free(old(reserved), size, w) ==> r <= w
    {
      hide Passable, Reached, PowerOfTwo, BitAnd, Refused;
      if !ready || !rootBus || |reserved| == RESERVED_MAX {
        return 0, false;
      }
      SizeTest(size);
      if Refused(size) {
        return 0, false;
      }
      var found := Search(reserved, size);
      OneResult(reserved, size, found);
      passable := passable && Passable(reserved, size);
      if found.Endless? {
        return 0, true;
      }
      if found.NoRoom? || !kept || found.at >= 0x1_0000_0000 {
        return 0, false;
      }
      r, hangs := found.at, false;
      ghost var window := Range(r, r + size);
      forall i | 0 <= i < |given| ensures Disjoint(given[i], window) {
        assert given[i] in reserved;
        var k :| 0 <= k < |reserved| && reserved[k] == given[i];
        assert !Collides(r, size, reserved[k]);
      }
      Reserve(r, size);
      given := given + [window];
    }
  }

  /** The search does not both end and go on. */
  lemma OneResult(reserved: seq<Range>, size: nat, r: Result)
    requires size > 0 && Reached(reserved, size, r)
    ensures Reached(reserved, size, Endless) <==> r.Endless?
  {
  }
}
