/** The few facts about products, quotients and remainders the solver is not left to find. */
module Arithmetic {
  lemma ProductNonNegative(a: int, b: int)
    requires a >= 0 && b >= 0
    ensures a * b >= 0
  {
  }

  lemma MultipleIsFar(n: int, d: int)
    requires n > 0 && d != 0
    ensures n * d >= n || n * d <= -n
  {
    if d > 0 {
      ProductNonNegative(n, d - 1);
      assert n * d == n + n * (d - 1);
    } else {
      ProductNonNegative(n, -1 - d);
      assert n * d == -n - n * (-1 - d);
    }
  }

  /** Quotient and remainder are determined by the equation they satisfy. */
  lemma DivModUnique(x: int, n: int, q: int, r: int)
    requires 0 <= r < n && x == n * q + r
    ensures x / n == q && x % n == r
  {
    var q0, r0 := x / n, x % n;
    assert x == n * q0 + r0;
    assert n * (q - q0) == n * q - n * q0;
    if q != q0 {
      MultipleIsFar(n, q - q0);
    }
  }

  /** Distinct numbers below `n` are at most `n` many. */
  lemma {:induction false} DistinctBelow(s: seq<int>, n: nat)
    requires forall i :: 0 <= i < |s| ==> 0 <= s[i] < n
    requires forall i, j :: 0 <= i < j < |s| ==> s[i] != s[j]
    ensures |s| <= n
  {
    if s != [] {
      assert 0 <= s[0] < n;
      if k :| 0 <= k < |s| && s[k] == n - 1 {
        DistinctBelow(s[..k] + s[k + 1..], n - 1);
      } else {
        DistinctBelow(s, n - 1);
      }
    }
  }

  predicate PowerOfTwo(n: nat) {
    n == 1 || (n > 1 && n % 2 == 0 && PowerOfTwo(n / 2))
  }

  /** C's `&` on unsigned numbers. */
  function BitAnd(x: nat, y: nat): nat {
    if x == 0 || y == 0 then 0 else 2 * BitAnd(x / 2, y / 2) + x % 2 * (y % 2)
  }

  lemma {:induction false} BitAndSame(x: nat)
    ensures BitAnd(x, x) == x
  {
    if x > 0 {
      BitAndSame(x / 2);
    }
  }

  /** The usual test: `n & (n - 1)` is zero exactly for powers of two. */
  lemma {:induction false} OneBitMask(n: nat)
    requires n > 0
    ensures BitAnd(n, n - 1) == 0 <==> PowerOfTwo(n)
  {
    if n > 1 {
      if n % 2 == 0 {
        assert (n - 1) / 2 == n / 2 - 1;
        OneBitMask(n / 2);
      } else {
        assert (n - 1) / 2 == n / 2 && (n - 1) % 2 == 0;
        BitAndSame(n / 2);
      }
    }
  }

  /** Masking with one less than a power of two takes the remainder. */
  lemma {:induction false} MaskIsRemainder(x: nat, n: nat)
    requires PowerOfTwo(n)
    ensures BitAnd(x, n - 1) == x % n
  {
    if n > 1 && x > 0 {
      assert (n - 1) / 2 == n / 2 - 1 && (n - 1) % 2 == 1;
      MaskIsRemainder(x / 2, n / 2);
      MaskStep(x, n / 2);
    } else if x == 0 {
      DivModUnique(0, n, 0, 0);
    }
  }

  lemma MaskStep(x: nat, h: nat)
    requires h > 0
    ensures x % (2 * h) == 2 * (x / 2 % h) + x % 2
  {
    var q, r := x / 2 / h, x / 2 % h;
    assert x / 2 == h * q + r;
    assert x == 2 * (h * q + r) + x % 2 == 2 * h * q + (2 * r + x % 2);
    DivModUnique(x, 2 * h, q, 2 * r + x % 2);
  }

  function Power(b: nat, e: nat): nat {
    if e == 0 then 1 else b * Power(b, e - 1)
  }

  lemma {:induction false} PowerPositive(b: nat, e: nat)
    requires b > 0
    ensures Power(b, e) > 0
  {
    if e > 0 {
      PowerPositive(b, e - 1);
      ProductNonNegative(b - 1, Power(b, e - 1));
    }
  }

  lemma PowerHalves(e: nat)
    ensures Power(2, e) > 0 && Power(2, 0) == 1
    ensures e > 0 ==> Power(2, e) > 1 && Power(2, e) % 2 == 0 && Power(2, e) / 2 == Power(2, e - 1)
  {
    PowerPositive(2, e);
    if e > 0 {
      PowerPositive(2, e - 1);
      DivModUnique(Power(2, e), 2, Power(2, e - 1), 0);
    }
  }

  /** Powers of two are what the name says. */
  lemma {:induction false} PowersOfTwo(n: nat)
    ensures PowerOfTwo(n) <==> exists e: nat :: n == Power(2, e)
  {
    if PowerOfTwo(n) {
      PowerFound(n);
    }
    forall e: nat | n == Power(2, e) ensures PowerOfTwo(n) {
      PowerPasses(e);
    }
  }

  lemma {:induction false} PowerFound(n: nat)
    requires PowerOfTwo(n)
    ensures exists e: nat :: n == Power(2, e)
  {
    if n == 1 {
      assert Power(2, 0) == n;
    } else {
      PowerFound(n / 2);
      var e: nat :| n / 2 == Power(2, e);
      assert Power(2, e + 1) == n;
    }
  }

  lemma {:induction false} PowerPasses(e: nat)
    ensures PowerOfTwo(Power(2, e))
  {
    PowerHalves(e);
    if e > 0 {
      PowerPasses(e - 1);
    }
  }

  /** Bit `k` of a number. */
  function BitAt(x: nat, k: nat): nat {
    if k == 0 then x % 2 else BitAt(x / 2, k - 1)
  }

  /** A bit of `x & y` is set exactly when it is set in both. */
  lemma {:induction false} BitAndBits(x: nat, y: nat, k: nat)
    ensures BitAt(BitAnd(x, y), k) == BitAt(x, k) * BitAt(y, k)
    decreases k
  {
    if k > 0 {
      BitAndBits(x / 2, y / 2, k - 1);
      BitAndHalf(x, y);
    } else if x > 0 && y > 0 {
      BitAndOdd(x, y);
    }
  }

  lemma BitAndOdd(x: nat, y: nat)
    requires x > 0 && y > 0
    ensures BitAnd(x, y) % 2 == x % 2 * (y % 2)
  {
    var q, b := BitAnd(x / 2, y / 2), if x % 2 == 1 && y % 2 == 1 then 1 else 0;
    assert x % 2 * (y % 2) == b;
    DivModUnique(BitAnd(x, y), 2, q, b);
  }

  lemma BitAndHalf(x: nat, y: nat)
    ensures BitAnd(x, y) / 2 == BitAnd(x / 2, y / 2)
  {
    if x > 0 && y > 0 {
      var q, b := BitAnd(x / 2, y / 2), if x % 2 == 1 && y % 2 == 1 then 1 else 0;
      assert x % 2 * (y % 2) == b;
      DivModUnique(BitAnd(x, y), 2, q, b);
    }
  }
}
